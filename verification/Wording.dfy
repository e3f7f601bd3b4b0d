/** What a text says, told letter by letter: the reference that lower-casing,
    trimming and searching are measured against. */
module Wording {
  import opened Text

  /** c is the lower-case letter or other character d, in any case. */
  ghost predicate SameLetter(c: char, d: char) {
    c == d || ('A' <= c <= 'Z' && c as int + 32 == d as int)
  }

  ghost predicate Says(text: string, word: string) {
    |text| == |word| && forall i :: 0 <= i < |text| ==> SameLetter(text[i], word[i])
  }

  /** The word occurs in the text, in any case. */
  ghost predicate Mentions(text: string, word: string) {
    exists i: nat, j: nat :: i <= j <= |text| && Says(text[i..j], word)
  }

  ghost predicate White(text: string) {
    forall i :: 0 <= i < |text| ==> text[i] in " \t\n\r"
  }

  /** The text is the word, in any case, with white space around it. */
  ghost predicate NamedAs(text: string, word: string) {
    exists i: nat, j: nat :: i <= j <= |text| && White(text[..i]) && White(text[j..]) && Says(text[i..j], word)
  }

  /** A text that is given: there and not empty. */
  ghost predicate Given(o: Option<string>, text: string) {
    o == Some(text) && |text| > 0
  }

  predicate NoCapitals(word: string) {
    forall i :: 0 <= i < |word| ==> !('A' <= word[i] <= 'Z')
  }

  lemma LowerIs(text: string, word: string)
    requires NoCapitals(word)
    ensures Lower(text) == word <==> Says(text, word)
  {
    if Lower(text) == word {
      forall i | 0 <= i < |text|
        ensures SameLetter(text[i], word[i])
      {
        assert Lower(text)[i] == LowerChar(text[i]);
      }
    }
    if Says(text, word) {
      forall i | 0 <= i < |text|
        ensures Lower(text)[i] == word[i]
      {
        assert SameLetter(text[i], word[i]);
      }
    }
  }

  lemma WhiteConcat(a: string, b: string)
    ensures White(a + b) <==> White(a) && White(b)
  {
    assert forall i :: 0 <= i < |a| ==> (a + b)[i] == a[i];
    assert forall i :: 0 <= i < |b| ==> (a + b)[|a| + i] == b[i];
  }

  lemma WhiteSpace(c: char)
    ensures White([]) && (White([c]) <==> IsSpace(c))
  {
    assert [c][0] == c;
  }

  lemma WithoutFirst(text: string, i: nat, j: nat)
    requires text != "" && IsSpace(text[0]) && i <= j <= |text| - 1
    ensures White(text[..i + 1]) <==> White(text[1..][..i])
    ensures text[j + 1..] == text[1..][j..] && text[i + 1..j + 1] == text[1..][i..j]
  {
    hide White, IsSpace;
    WhiteSpace(text[0]);
    TailSlices(text, i, j);
    WhiteConcat([text[0]], text[1..i + 1]);
    assert text[..i + 1] == [text[0]] + text[1..i + 1];
  }

  lemma TailSlices(text: string, i: nat, j: nat)
    requires i <= j <= |text| - 1
    ensures text[1..][..i] == text[1..i + 1]
    ensures text[1..][j..] == text[j + 1..]
    ensures text[1..][i..j] == text[i + 1..j + 1]
  {
    var tail := text[1..];
    assert forall k :: 0 <= k < |tail| ==> tail[k] == text[k + 1];
    assert forall k :: 0 <= k < i ==> tail[..i][k] == text[1..i + 1][k];
    assert forall k :: 0 <= k < |tail| - j ==> tail[j..][k] == text[j + 1..][k];
    assert forall k :: 0 <= k < j - i ==> tail[i..j][k] == text[i + 1..j + 1][k];
  }

  lemma WithoutLast(text: string, i: nat, j: nat)
    requires text != "" && IsSpace(text[|text| - 1]) && i <= j <= |text| - 1
    ensures White(text[j..]) <==> White(text[..|text| - 1][j..])
    ensures text[..i] == text[..|text| - 1][..i] && text[i..j] == text[..|text| - 1][i..j]
  {
    hide White, IsSpace;
    var less, last := text[..|text| - 1], text[|text| - 1];
    WhiteSpace(last);
    InitSlices(text, i, j);
    WhiteConcat(less[j..], [last]);
    assert text[j..] == text[j..|text| - 1] + [last];
  }

  lemma InitSlices(text: string, i: nat, j: nat)
    requires i <= j <= |text| - 1
    ensures text[..|text| - 1][..i] == text[..i]
    ensures text[..|text| - 1][j..] == text[j..|text| - 1]
    ensures text[..|text| - 1][i..j] == text[i..j]
  {
    var less := text[..|text| - 1];
    assert forall k :: 0 <= k < |less| ==> less[k] == text[k];
    assert forall k :: 0 <= k < i ==> less[..i][k] == text[..i][k];
    assert forall k :: 0 <= k < |less| - j ==> less[j..][k] == text[j..|text| - 1][k];
    assert forall k :: 0 <= k < j - i ==> less[i..j][k] == text[i..j][k];
  }

  lemma WhiteAt(text: string, k: nat)
    requires White(text) && k < |text|
    ensures IsSpace(text[k])
  {
  }

  /** White space around a text that has none at its ends is trimmed away. */
  lemma {:induction false} TrimOf(text: string, i: nat, j: nat)
    requires i < j <= |text| && White(text[..i]) && White(text[j..])
    requires !IsSpace(text[i]) && !IsSpace(text[j - 1])
    ensures Trim(text) == text[i..j]
    decreases |text|
  {
    hide White, IsSpace;
    if i > 0 {
      WhiteAt(text[..i], 0);
      WithoutFirst(text, i - 1, j - 1);
      TrimOf(text[1..], i - 1, j - 1);
    } else if j < |text| {
      WhiteAt(text[j..], |text| - 1 - j);
      WithoutLast(text, i, j);
      TrimOf(text[..|text| - 1], i, j);
    } else {
      assert text[i..j] == text;
    }
  }

  /** What is trimmed away is white space. */
  lemma {:induction false} TrimParts(text: string) returns (i: nat, j: nat)
    ensures i <= j <= |text| && text[i..j] == Trim(text) && White(text[..i]) && White(text[j..])
    decreases |text|
  {
    hide White, IsSpace;
    WhiteSpace(' ');
    if text == "" {
      i, j := 0, 0;
    } else if IsSpace(text[0]) {
      var k, m := TrimParts(text[1..]);
      i, j := k + 1, m + 1;
      WithoutFirst(text, k, m);
    } else if IsSpace(text[|text| - 1]) {
      i, j := TrimParts(text[..|text| - 1]);
      WithoutLast(text, i, j);
    } else {
      i, j := 0, |text|;
      assert text[0..|text|] == text && text[..0] == [] && text[|text|..] == [];
    }
  }

  lemma TrimmedIs(text: string, word: string)
    requires NoCapitals(word) && word != "" && !IsSpace(word[0]) && !IsSpace(word[|word| - 1])
    ensures Lower(Trim(text)) == word <==> NamedAs(text, word)
  {
    hide Trim, Lower, White, Says, NamedAs;
    LowerIs(Trim(text), word);
    if Says(Trim(text), word) { TrimmedIsNamed(text, word); }
    if NamedAs(text, word) { NamedIsTrimmed(text, word); }
  }

  lemma TrimmedIsNamed(text: string, word: string)
    requires Says(Trim(text), word)
    ensures NamedAs(text, word)
  {
    hide Trim, White, Says;
    var i, j := TrimParts(text);
  }

  lemma NamedIsTrimmed(text: string, word: string)
    requires word != "" && !IsSpace(word[0]) && !IsSpace(word[|word| - 1]) && NamedAs(text, word)
    ensures Says(Trim(text), word)
  {
    hide Trim, White;
    var i: nat, j: nat :| i <= j <= |text| && White(text[..i]) && White(text[j..]) && Says(text[i..j], word);
    assert SameLetter(text[i..j][0], word[0]) && SameLetter(text[i..j][j - i - 1], word[|word| - 1]);
    TrimOf(text, i, j);
  }

  lemma BlankIs(o: Option<string>)
    ensures Blank(o) <==> o.None? || White(o.value)
  {
  }
}
