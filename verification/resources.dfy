/**
  What the generator works on. The tree walk, file reading, JSON parsing and
  regex matching happen outside the model: a file arrives already read, and
  the host supplies the pieces of the platform the providers call.
 */
module Resources {
  import opened SkinStyles

  /**
    A file found under the resource root: its own name, the name and absolute
    path of its parent directory, and its content as read.
   */
  datatype ResourceFile = ResourceFile(name: string, parentName: string, parentPath: string, content: string)

  /**
    The platform as the providers see it: the absolute path of the resource
    root and the directory separator, `name.matches(".*$mask.*")` for a mask,
    the path fixer applied to relative directories, and the skin parser that
    turns a skin file into its top-level sections.
   */
  datatype Host = Host(
    sourcePath: string,
    separator: char,
    maskMatches: (string, string) -> bool,
    fixPath: string -> string,
    parseSkin: string -> seq<Section>)
}
