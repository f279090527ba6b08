/**
 Stripping and clipping of strings as Python does it.
 */
module Text {
  import opened Tables

  /** Python's whitespace characters. */
  predicate IsSpace(c: char) {
    var n := c as int;
    || 9 <= n <= 13 || 28 <= n <= 32 || n == 0x85 || n == 0xA0 || n == 0x1680 || 0x2000 <= n <= 0x200A
    || n == 0x2028 || n == 0x2029 || n == 0x202F || n == 0x205F || n == 0x3000
  }

  function DropLeading(s: string): string {
    if s != "" && IsSpace(s[0]) then DropLeading(s[1..]) else s
  }

  function DropTrailing(s: string): string {
    if s != "" && IsSpace(s[|s| - 1]) then DropTrailing(s[..|s| - 1]) else s
  }

  /** str.strip(). */
  function Strip(s: string): string { DropTrailing(DropLeading(s)) }

  /** No outer whitespace. */
  predicate Bare(s: string) { s != "" ==> !IsSpace(s[0]) && !IsSpace(s[|s| - 1]) }

  lemma {:induction false} DropLeadingMeaning(s: string)
    ensures |DropLeading(s)| <= |s| && DropLeading(s) == s[|s| - |DropLeading(s)|..]
    ensures forall i :: 0 <= i < |s| - |DropLeading(s)| ==> IsSpace(s[i])
    ensures DropLeading(s) != "" ==> !IsSpace(DropLeading(s)[0])
  {
    if s != "" && IsSpace(s[0]) {
      DropLeadingMeaning(s[1..]);
      assert forall i :: 1 <= i < |s| ==> s[i] == s[1..][i - 1];
    }
  }

  lemma {:induction false} DropTrailingMeaning(s: string)
    ensures |DropTrailing(s)| <= |s| && DropTrailing(s) == s[..|DropTrailing(s)|]
    ensures forall i :: |DropTrailing(s)| <= i < |s| ==> IsSpace(s[i])
    ensures DropTrailing(s) != "" ==> !IsSpace(DropTrailing(s)[|DropTrailing(s)| - 1])
  {
    if s != "" && IsSpace(s[|s| - 1]) { DropTrailingMeaning(s[..|s| - 1]); }
  }

  /** Strip cuts whitespace off both ends and nothing else: it leaves a bare middle part. */
  lemma StripMeaning(s: string) returns (i: nat, j: nat)
    ensures i <= j <= |s| && Strip(s) == s[i..j]
    ensures forall k :: 0 <= k < i || j <= k < |s| ==> IsSpace(s[k])
    ensures Bare(Strip(s))
  {
    var led := DropLeading(s);
    DropLeadingMeaning(s);
    DropTrailingMeaning(led);
    i := |s| - |led|;
    j := i + |DropTrailing(led)|;
    assert forall k :: 0 <= k < |led| ==> led[k] == s[i + k];
    assert forall k :: j <= k < |s| ==> s[k] == led[k - i];
  }

  /** Exactly the strings without outer whitespace are left alone. */
  lemma StripBares(s: string)
    ensures Bare(Strip(s))
    ensures Bare(s) <==> Strip(s) == s
  {
    var i, j := StripMeaning(s);
  }

  lemma StripTwice(s: string)
    ensures Strip(Strip(s)) == Strip(s)
  {
    StripBares(s);
    StripBares(Strip(s));
  }

  /** A text that starts and ends with a letter has nothing to strip. */
  lemma LetteredStrips(s: string)
    requires s != "" && 'a' <= s[0] <= 'z' && 'a' <= s[|s| - 1] <= 'z'
    ensures Strip(s) == s
  {
    StripBares(s);
  }

  /** A client message id as it is stored: stripped, cut to 100 characters, an empty one dropped. */
  function NormalizeClientId(raw: string): Option<string> {
    var s := Strip(raw);
    var cut := if |s| <= 100 then s else s[..100];
    if cut == "" then None else Some(cut)
  }

  /**
   What is stored: nothing exactly when the browser sent nothing but whitespace, else the
   text without its outer whitespace, whole up to 100 characters, else its first 100.
   */
  lemma StoredIdExactly(raw: string) returns (i: nat, j: nat)
    ensures i <= j <= |raw|
    ensures forall k :: 0 <= k < i || j <= k < |raw| ==> IsSpace(raw[k])
    ensures i < j ==> !IsSpace(raw[i]) && !IsSpace(raw[j - 1])
    ensures NormalizeClientId(raw).None? <==> forall k :: 0 <= k < |raw| ==> IsSpace(raw[k])
    ensures NormalizeClientId(raw).Some? ==>
              && i < j
              && NormalizeClientId(raw) == Some(if j - i <= 100 then raw[i..j] else raw[i..i + 100])
  {
    i, j := StripMeaning(raw);
    var s := Strip(raw);
    if i < j {
      assert s[0] == raw[i] && s[|s| - 1] == raw[j - 1];
      assert j - i > 100 ==> s[..100] == raw[i..i + 100];
    }
  }

  /**
   A stored id is its own normal form, so that a retry carrying it finds the row,
   exactly when the cut at 100 did not land behind a blank.
   */
  lemma StoredIdNormalizesExactly(raw: string)
    requires NormalizeClientId(raw).Some?
    ensures var stored := NormalizeClientId(raw).value;
            && 1 <= |stored| <= 100
            && (NormalizeClientId(stored) == Some(stored) <==> |Strip(raw)| <= 100 || !IsSpace(Strip(raw)[99]))
  {
    var s, stored := Strip(raw), NormalizeClientId(raw).value;
    StripBares(raw);
    StripBares(stored);
    var i, j := StripMeaning(stored);
    if |s| > 100 {
      assert stored[99] == s[99] && stored[0] == s[0];
      assert Bare(stored) <==> !IsSpace(s[99]);
    }
  }

  function Repeated(c: char, n: nat): string { seq(n, _ => c) }

  /** 99 letters, a blank and a letter: the stored id ends in the blank, and sent again it becomes a shorter id. */
  lemma CutBehindBlank()
    ensures var raw := Repeated('a', 99) + " b";
            NormalizeClientId(raw) == Some(Repeated('a', 99) + " ")
                && NormalizeClientId(Repeated('a', 99) + " ") != Some(Repeated('a', 99) + " ")
  {
    var raw, stored := Repeated('a', 99) + " b", Repeated('a', 99) + " ";
    assert Bare(raw);
    StripBares(raw);
    assert raw[..100] == stored;
    StoredIdNormalizesExactly(raw);
    assert IsSpace(raw[99]);
  }
}
