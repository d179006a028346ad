/** The few functions of Go's strings package that the models need. */
module Text {

  /** unicode.IsSpace. */
  predicate IsSpace(c: char) {
    || '\t' <= c <= '\r' || c == ' ' || c == '\U{85}' || c == '\U{A0}' || c == '\U{1680}'
    || '\U{2000}' <= c <= '\U{200A}' || c == '\U{2028}' || c == '\U{2029}' || c == '\U{202F}'
    || c == '\U{205F}' || c == '\U{3000}'
  }

  function TrimLeft(s: string): (t: string)
    ensures t == [] || !IsSpace(t[0])
  {
    if s != [] && IsSpace(s[0]) then TrimLeft(s[1..]) else s
  }

  function TrimRight(s: string): (t: string)
    ensures t <= s
    ensures t == [] || !IsSpace(t[|t| - 1])
  {
    if s != [] && IsSpace(s[|s| - 1]) then TrimRight(s[..|s| - 1]) else s
  }

  /** strings.TrimSpace. */
  function TrimSpace(s: string): string { TrimRight(TrimLeft(s)) }

  function LowerChar(c: char): char {
    if 'A' <= c <= 'Z' then (c as int + 32) as char else c
  }

  /** strings.ToLower, on ASCII letters. */
  function ToLower(s: string): (t: string)
    ensures |t| == |s|
  {
    seq(|s|, i requires 0 <= i < |s| => LowerChar(s[i]))
  }

  /** strings.EqualFold, on ASCII letters. */
  predicate EqualFold(a: string, b: string) { ToLower(a) == ToLower(b) }

  /** Go's < on strings: the first difference decides, a proper prefix is smaller. */
  predicate StringLess(a: string, b: string) {
    b != "" && (a == "" || a[0] < b[0] || (a[0] == b[0] && StringLess(a[1..], b[1..])))
  }

  lemma {:induction false} StringLessIsTotal(a: string, b: string)
    ensures StringLess(a, b) || StringLess(b, a) || a == b
    ensures !(StringLess(a, b) && StringLess(b, a))
  {
    if a != "" && b != "" {
      StringLessIsTotal(a[1..], b[1..]);
      assert a == [a[0]] + a[1..] && b == [b[0]] + b[1..];
    }
  }

  lemma {:induction false} StringLessIsTransitive(a: string, b: string, c: string)
    requires StringLess(a, b) && StringLess(b, c)
    ensures StringLess(a, c)
  {
    if a != "" && a[0] == b[0] && b[0] == c[0] {
      StringLessIsTransitive(a[1..], b[1..], c[1..]);
    }
  }

  /** The spaces among the ASCII characters. */
  lemma AsciiSpaces(c: char)
    requires c as int < 128
    ensures IsSpace(c) <==> c == ' ' || c == '\t' || c == '\n' || c == '\r' || c as int == 11 || c as int == 12
  {}

  lemma {:induction false} TrimLeftIs(s: string) returns (left: string)
    ensures s == left + TrimLeft(s) && forall c :: c in left ==> IsSpace(c)
  {
    left := "";
    if s != "" && IsSpace(s[0]) {
      var rest := TrimLeftIs(s[1..]);
      left := [s[0]] + rest;
      assert s == [s[0]] + s[1..];
    }
  }

  lemma {:induction false} TrimRightIs(s: string)
    ensures forall i :: |TrimRight(s)| <= i < |s| ==> IsSpace(s[i])
  {
    if s != "" && IsSpace(s[|s| - 1]) {
      TrimRightIs(s[..|s| - 1]);
    }
  }

  /** Trimming takes the spaces off both ends, and nothing else. */
  lemma TrimSpaceIs(s: string) returns (left: string, right: string)
    ensures s == left + TrimSpace(s) + right && forall c :: c in left + right ==> IsSpace(c)
    ensures TrimSpace(s) != "" ==> !IsSpace(TrimSpace(s)[0]) && !IsSpace(TrimSpace(s)[|TrimSpace(s)| - 1])
  {
    left := TrimLeftIs(s);
    TrimRightIs(TrimLeft(s));
    right := TrimLeft(s)[|TrimSpace(s)|..];
    if TrimSpace(s) != "" {
      assert TrimSpace(s)[0] == TrimLeft(s)[0];
    }
  }

  /** Lower case, character by character. */
  lemma ToLowerIs(s: string, i: nat)
    requires i < |s|
    ensures ToLower(s)[i] as int == if 'A' <= s[i] <= 'Z' then s[i] as int + 32 else s[i] as int
  {}

  /** Folding takes a capital and its small letter for the same, and nothing else. */
  lemma EqualFoldIff(a: string, b: string)
    ensures EqualFold(a, b) <==> |a| == |b| && forall i :: 0 <= i < |a| ==> SameLetter(a[i], b[i])
  {
    if EqualFold(a, b) {
      forall i | 0 <= i < |a|
        ensures SameLetter(a[i], b[i])
      {
        assert ToLower(a)[i] == ToLower(b)[i];
      }
    }
  }

  predicate SameLetter(a: char, b: char) {
    || a == b
    || ('A' <= a <= 'Z' && b as int == a as int + 32)
    || ('A' <= b <= 'Z' && a as int == b as int + 32)
  }

  /** A string is smaller if it is a proper prefix, or has the smaller character where the two first differ. */
  lemma {:induction false} StringLessIff(a: string, b: string)
    ensures StringLess(a, b) <==> exists k: nat :: DiffersAt(a, b, k) && (k == |a| || a[k] < b[k])
  {
    if a != "" && b != "" && a[0] == b[0] {
      StringLessIff(a[1..], b[1..]);
      forall k: nat
        ensures DiffersAt(a[1..], b[1..], k) <==> DiffersAt(a, b, k + 1)
      {
        FirstDifference(a, b, k);
      }
      if k: nat :| DiffersAt(a, b, k) && (k == |a| || a[k] < b[k]) {
        assert k > 0 && DiffersAt(a[1..], b[1..], k - 1);
      }
      if k: nat :| DiffersAt(a[1..], b[1..], k) && (k == |a| - 1 || a[1..][k] < b[1..][k]) {
        assert DiffersAt(a, b, k + 1);
      }
    } else if b != "" {
      assert DiffersAt(a, b, 0);
    }
  }

  /** Equal up to k, where b has a character and a has none or another one. */
  predicate DiffersAt(a: string, b: string, k: nat) { k <= |a| && k < |b| && a[..k] == b[..k] && (k < |a| ==> a[k] != b[k]) }

  lemma FirstDifference(a: string, b: string, k: nat)
    requires a != "" && b != "" && a[0] == b[0]
    ensures DiffersAt(a[1..], b[1..], k) <==> DiffersAt(a, b, k + 1)
  {
    if k + 1 <= |a| && k + 1 < |b| {
      assert a[..k + 1] == [a[0]] + a[1..][..k] && b[..k + 1] == [b[0]] + b[1..][..k];
    }
  }
}
