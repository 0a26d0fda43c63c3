/**
  `String.escape()`: every character outside Java's `\w` class is replaced by
  an underscore, one character at a time, which turns arbitrary text into a
  name usable as a Kotlin constant.
 */
module Escaping {

  /** Java's `\w` without the UNICODE_CHARACTER_CLASS flag: `[a-zA-Z_0-9]`. */
  predicate IsWordChar(c: char)
  {
    'a' <= c <= 'z' || 'A' <= c <= 'Z' || '0' <= c <= '9' || c == '_'
  }

  /** Text made of word characters only. */
  predicate IsIdentifierSafe(s: string)
  {
    forall k :: 0 <= k < |s| ==> IsWordChar(s[k])
  }

  function Escape(s: string): (r: string)
    ensures |r| == |s|
    ensures forall k :: 0 <= k < |s| ==> r[k] == (if IsWordChar(s[k]) then s[k] else '_')
  {
    if s == [] then []
    else [if IsWordChar(s[0]) then s[0] else '_'] + Escape(s[1..])
  }

  /** Every character of an escaped string is in `[A-Za-z0-9_]`. */
  lemma EscapeIsIdentifierSafe(s: string)
    ensures IsIdentifierSafe(Escape(s))
  {
  }

  /** Escaping leaves a string alone exactly when it is already made of word characters. */
  lemma EscapeFixpoint(s: string)
    ensures Escape(s) == s <==> IsIdentifierSafe(s)
  {
    if Escape(s) == s {
      forall k | 0 <= k < |s| ensures IsWordChar(s[k]) {
        assert Escape(s)[k] == s[k];
      }
    }
  }

  /** Escaping twice is escaping once. */
  lemma EscapeIdempotent(s: string)
    ensures Escape(Escape(s)) == Escape(s)
  {
    EscapeIsIdentifierSafe(s);
    EscapeFixpoint(Escape(s));
  }

  /** The empty string is the only one that escapes to the empty string. */
  lemma EscapeEmpty(s: string)
    ensures Escape(s) == [] <==> s == []
  {
  }

}
