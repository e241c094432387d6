/** White space and separators on sequences of code points, as Go's strings package treats them. */
module Text {

  /** Unicode's White_Space property. */
  predicate IsSpaceCode(n: int) {
    || 9 <= n <= 13 || n == 32 || n == 0x85 || n == 0xA0 || n == 0x1680 || 0x2000 <= n <= 0x200A
    || n == 0x2028 || n == 0x2029 || n == 0x202F || n == 0x205F || n == 0x3000
  }

  predicate IsSpace(c: char) {
    IsSpaceCode(c as int)
  }

  function TrimLeft(s: string): string {
    if s != [] && IsSpace(s[0]) then TrimLeft(s[1..]) else s
  }

  function TrimRight(s: string): string {
    if s != [] && IsSpace(s[|s| - 1]) then TrimRight(s[..|s| - 1]) else s
  }

  function TrimSpace(s: string): string {
    TrimRight(TrimLeft(s))
  }

  predicate Trimmed(s: string) {
    s == [] || (!IsSpace(s[0]) && !IsSpace(s[|s| - 1]))
  }

  lemma {:induction false} TrimLeftStops(s: string)
    ensures TrimLeft(s) == [] || !IsSpace(TrimLeft(s)[0])
    ensures forall c :: c in TrimLeft(s) ==> c in s
  {
    if s != [] && IsSpace(s[0]) {
      TrimLeftStops(s[1..]);
    }
  }

  lemma {:induction false} TrimRightStops(s: string)
    ensures TrimRight(s) <= s
    ensures TrimRight(s) == [] || !IsSpace(TrimRight(s)[|TrimRight(s)| - 1])
  {
    if s != [] && IsSpace(s[|s| - 1]) {
      TrimRightStops(s[..|s| - 1]);
    }
  }

  lemma TrimSpaceIsTrimmed(s: string)
    ensures Trimmed(TrimSpace(s))
    ensures Trimmed(s) ==> TrimSpace(s) == s
    ensures forall c :: c in TrimSpace(s) ==> c in s
  {
    TrimLeftStops(s);
    TrimRightStops(TrimLeft(s));
  }

  lemma {:induction false} TrimLeftCuts(s: string) returns (a: nat)
    ensures a <= |s| && TrimLeft(s) == s[a..] && forall i :: 0 <= i < a ==> IsSpace(s[i])
  {
    if s != [] && IsSpace(s[0]) {
      var b := TrimLeftCuts(s[1..]);
      a := b + 1;
      assert forall i :: 1 <= i < a ==> s[i] == s[1..][i - 1];
    } else {
      a := 0;
    }
  }

  lemma {:induction false} TrimRightCuts(s: string) returns (b: nat)
    ensures b <= |s| && TrimRight(s) == s[..b] && forall i :: b <= i < |s| ==> IsSpace(s[i])
  {
    if s != [] && IsSpace(s[|s| - 1]) {
      b := TrimRightCuts(s[..|s| - 1]);
      assert forall i :: b <= i < |s| - 1 ==> s[i] == s[..|s| - 1][i];
    } else {
      b := |s|;
    }
  }

  /** Trimming cuts off white space at both ends, and no more than that. */
  lemma TrimSpaceCuts(s: string) returns (a: nat, b: nat)
    ensures a <= b <= |s| && TrimSpace(s) == s[a..b] && Trimmed(s[a..b])
    ensures forall i :: 0 <= i < a || b <= i < |s| ==> IsSpace(s[i])
  {
    a := TrimLeftCuts(s);
    var n := TrimRightCuts(s[a..]);
    b := a + n;
    TrimSpaceIsTrimmed(s);
    assert forall i :: b <= i < |s| ==> s[i] == s[a..][i - a];
  }

  /** text is line without the characters of cut that it ends with. */
  ghost predicate StripsTo(line: string, text: string, cut: set<char>) {
    && text <= line && (text == [] || text[|text| - 1] !in cut)
    && forall i :: |text| <= i < |line| ==> line[i] in cut
  }

  lemma StripsToOne(line: string, text: string, other: string, cut: set<char>)
    requires StripsTo(line, text, cut) && StripsTo(line, other, cut)
    ensures text == other
  {
    assert text == line[..|text|] && other == line[..|other|];
  }

  function IndexOf(s: string, c: char): (i: nat)
    requires c in s
    ensures i < |s| && s[i] == c && c !in s[..i]
  {
    if s[0] == c then 0 else 1 + IndexOf(s[1..], c)
  }

  lemma IndexAfter(a: string, c: char, b: string)
    requires c !in a
    ensures IndexOf(a + [c] + b, c) == |a|
  {
    var s := a + [c] + b;
    var i := IndexOf(s, c);
    assert s[|a|] == c;
    assert forall j :: 0 <= j < |a| ==> s[j] in a;
    assert forall j :: 0 <= j < i ==> s[j] in s[..i];
  }

  /** strings.SplitN: at most n parts, the last of which may still contain the separator. */
  function SplitN(s: string, c: char, n: nat): (parts: seq<string>)
    requires n >= 1
    ensures 1 <= |parts| <= n
    decreases n
  {
    if n == 1 || c !in s then [s]
    else [s[..IndexOf(s, c)]] + SplitN(s[IndexOf(s, c) + 1..], c, n - 1)
  }

  /** strings.Split: no limit on the number of parts. */
  function Split(s: string, c: char): (parts: seq<string>)
    ensures |parts| >= 1
    decreases |s|
  {
    if c !in s then [s]
    else [s[..IndexOf(s, c)]] + Split(s[IndexOf(s, c) + 1..], c)
  }

  lemma {:induction false} SplitHasNoSeparator(s: string, c: char)
    ensures forall i :: 0 <= i < |Split(s, c)| ==> c !in Split(s, c)[i]
    decreases |s|
  {
    if c in s {
      SplitHasNoSeparator(s[IndexOf(s, c) + 1..], c);
    }
  }

  lemma {:induction false} SplitNHasNoSeparator(s: string, c: char, n: nat, i: nat)
    requires n >= 1 && i < |SplitN(s, c, n)| && i + 1 < n
    ensures c !in SplitN(s, c, n)[i]
    decreases n
  {
    if n > 1 && c in s && i > 0 {
      SplitNHasNoSeparator(s[IndexOf(s, c) + 1..], c, n - 1, i - 1);
    }
  }

  /** Splitting adds no characters. */
  lemma {:induction false} SplitAddsNothing(s: string, c: char, x: char)
    requires x !in s
    ensures forall i :: 0 <= i < |Split(s, c)| ==> x !in Split(s, c)[i]
    decreases |s|
  {
    if c in s {
      SplitAddsNothing(s[IndexOf(s, c) + 1..], c, x);
    }
  }

  lemma {:induction false} SplitNAddsNothing(s: string, c: char, n: nat, x: char)
    requires n >= 1 && x !in s
    ensures forall i :: 0 <= i < |SplitN(s, c, n)| ==> x !in SplitN(s, c, n)[i]
    decreases n
  {
    if n > 1 && c in s {
      SplitNAddsNothing(s[IndexOf(s, c) + 1..], c, n - 1, x);
    }
  }

  lemma SplitFirst(a: string, c: char, b: string)
    requires c !in a
    ensures Split(a + [c] + b, c) == [a] + Split(b, c)
  {
    var s := a + [c] + b;
    assert s[|a|] == c;
    IndexAfter(a, c, b);
    assert s[..|a|] == a && s[|a| + 1..] == b;
  }

  lemma SplitNFirst(a: string, c: char, b: string, n: nat)
    requires c !in a && n >= 2
    ensures SplitN(a + [c] + b, c, n) == [a] + SplitN(b, c, n - 1)
  {
    var s := a + [c] + b;
    assert s[|a|] == c;
    IndexAfter(a, c, b);
    assert s[..|a|] == a && s[|a| + 1..] == b;
  }

  lemma Split3(a: string, c: char, b: string, d: string)
    requires c !in a && c !in b && c !in d
    ensures Split(a + [c] + (b + [c] + d), c) == [a, b, d]
  {
    SplitFirst(a, c, b + [c] + d);
    SplitFirst(b, c, d);
  }

  lemma SplitN2(a: string, c: char, b: string, n: nat)
    requires c !in a && n >= 2 && (n == 2 || c !in b)
    ensures SplitN(a + [c] + b, c, n) == [a, b]
  {
    SplitNFirst(a, c, b, n);
  }

  lemma SplitN3(a: string, c: char, b: string, d: string, n: nat)
    requires c !in a && c !in b && n >= 3 && (n == 3 || c !in d)
    ensures SplitN(a + [c] + (b + [c] + d), c, n) == [a, b, d]
  {
    SplitNFirst(a, c, b + [c] + d, n);
    SplitN2(b, c, d, n - 1);
  }

  lemma SplitN4(a: string, c: char, b: string, d: string, e: string)
    requires c !in a && c !in b && c !in d
    ensures SplitN(a + [c] + (b + [c] + (d + [c] + e)), c, 4) == [a, b, d, e]
  {
    SplitNFirst(a, c, b + [c] + (d + [c] + e), 4);
    SplitN3(b, c, d, e, 3);
  }
}
