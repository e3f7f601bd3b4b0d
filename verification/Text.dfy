/** Optional values and the few text tests the models share. */
module Text {

  datatype Option<+T> = None | Some(value: T)

  /** Python's truth test of an optional string: neither missing nor empty. */
  predicate NonEmpty(o: Option<string>) {
    o.Some? && o.value != ""
  }

  /** Python's `a or b` on optional strings. */
  function Or(a: Option<string>, b: Option<string>): Option<string> {
    if NonEmpty(a) then a else b
  }

  predicate IsSpace(c: char) {
    c == ' ' || c == '\t' || c == '\n' || c == '\r'
  }

  /** Missing, empty, or nothing but white space. */
  predicate Blank(o: Option<string>) {
    o.None? || forall i :: 0 <= i < |o.value| ==> IsSpace(o.value[i])
  }

  function LowerChar(c: char): char {
    if 'A' <= c <= 'Z' then (c as int + 32) as char else c
  }

  /** ASCII lower-casing, character by character. */
  function Lower(s: string): (r: string)
    ensures |r| == |s|
  {
    seq(|s|, i requires 0 <= i < |s| => LowerChar(s[i]))
  }

  /** Without the white space at either end. */
  function Trim(s: string): (r: string)
    ensures |r| <= |s|
    ensures r != "" ==> !IsSpace(r[0]) && !IsSpace(r[|r| - 1])
    decreases |s|
  {
    if s == "" then ""
    else if IsSpace(s[0]) then Trim(s[1..])
    else if IsSpace(s[|s| - 1]) then Trim(s[..|s| - 1])
    else s
  }

  /** Only blank text has nothing left without the white space around it. */
  lemma {:induction false} TrimKeepsText(s: string)
    requires !Blank(Some(s))
    ensures !Blank(Some(Trim(s)))
    decreases |s|
  {
    if IsSpace(s[0]) {
      assert exists i :: 1 <= i < |s| && !IsSpace(s[i]) && s[1..][i - 1] == s[i];
      TrimKeepsText(s[1..]);
    } else if IsSpace(s[|s| - 1]) {
      assert s[..|s| - 1][0] == s[0];
      TrimKeepsText(s[..|s| - 1]);
    }
  }
}
