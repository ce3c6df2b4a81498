/**
 * The input normalisation every public entry point of the locator library
 * applies first: `locator.Trim().ToUpper()`.
 *
 * Only ASCII is modelled: white space is the ASCII white-space set and
 * upper-casing maps 'a'..'z' to 'A'..'Z' and leaves every other character alone.
 */
module Text {

  /** ASCII white space: space, and the control characters TAB, LF, VT, FF, CR. */
  predicate IsWhiteSpace(c: char) {
    c == ' ' || '\t' <= c <= '\r'
  }

  predicate IsLowerLetter(c: char) {
    'a' <= c <= 'z'
  }

  /** Drops leading white space. */
  function TrimStart(s: string): string
  {
    if |s| > 0 && IsWhiteSpace(s[0]) then TrimStart(s[1..]) else s
  }

  /** Drops trailing white space. */
  function TrimEnd(s: string): string
  {
    if |s| > 0 && IsWhiteSpace(s[|s| - 1]) then TrimEnd(s[..|s| - 1]) else s
  }

  /** `String.Trim()`: the input without white space at either end. */
  function Trim(s: string): string
  {
    TrimEnd(TrimStart(s))
  }

  function UpperChar(c: char): char
  {
    if IsLowerLetter(c) then (c as int - 32) as char else c
  }

  function LowerChar(c: char): char
  {
    if 'A' <= c <= 'Z' then (c as int + 32) as char else c
  }

  /** `String.ToUpper()` restricted to ASCII letters. */
  function ToUpper(s: string): string
  {
    seq(|s|, i requires 0 <= i < |s| => UpperChar(s[i]))
  }

  /** `locator.Trim().ToUpper()`. */
  function Normalize(s: string): string
  {
    ToUpper(Trim(s))
  }

  /** TrimStart removes a white-space prefix and nothing else, and leaves no white space in front. */
  lemma {:induction false} TrimStartShape(s: string)
    ensures var r := TrimStart(s);
      |r| <= |s| && r == s[|s| - |r|..]
      && (forall i | 0 <= i < |s| - |r| :: IsWhiteSpace(s[i]))
      && (r == [] || !IsWhiteSpace(r[0]))
  {
    if |s| > 0 && IsWhiteSpace(s[0]) {
      TrimStartShape(s[1..]);
    }
  }

  /** TrimEnd removes a white-space suffix and nothing else, and leaves no white space at the end. */
  lemma {:induction false} TrimEndShape(s: string)
    ensures var r := TrimEnd(s);
      |r| <= |s| && r == s[..|r|]
      && (forall i | |r| <= i < |s| :: IsWhiteSpace(s[i]))
      && (r == [] || !IsWhiteSpace(r[|r| - 1]))
  {
    if |s| > 0 && IsWhiteSpace(s[|s| - 1]) {
      TrimEndShape(s[..|s| - 1]);
    }
  }

  /**
   * The normal form is the input with its white-space ends removed, letter
   * for letter upper-cased: no lower-case letter and no white space at either
   * end is left.
   */
  lemma NormalizeShape(s: string)
    ensures var r := Normalize(s);
      |r| <= |s|
      && (forall i | 0 <= i < |r| :: !IsLowerLetter(r[i]))
      && (r == [] || (!IsWhiteSpace(r[0]) && !IsWhiteSpace(r[|r| - 1])))
  {
    TrimStartShape(s);
    TrimEndShape(TrimStart(s));
  }

  /** A string with no lower-case letter and no white space is its own normal form. */
  lemma NormalizeIdentity(s: string)
    requires forall i | 0 <= i < |s| :: !IsLowerLetter(s[i]) && !IsWhiteSpace(s[i])
    ensures Normalize(s) == s
  {
    assert TrimStart(s) == s;
    assert TrimEnd(s) == s;
    assert ToUpper(s) == s;
  }

  /** Without white space, normalising is upper-casing. */
  lemma NormalizeWithoutWhiteSpace(s: string)
    requires forall i | 0 <= i < |s| :: !IsWhiteSpace(s[i])
    ensures Normalize(s) == ToUpper(s)
  {
    assert TrimStart(s) == s;
    assert TrimEnd(s) == s;
  }
}
