/**
 The message sanitiser of internal/server/server.go, on bytes.

 Tags are removed until nothing changes, the text is cut to a number of bytes and marked with "...",
 and white space is trimmed from both ends.  White space is Unicode's White_Space property in its
 UTF-8 encoding, as strings.TrimSpace takes it.
 */
module Sanitizer {
  import Text

  type Byte = b: int | 0 <= b < 256

  type Bytes = seq<Byte>

  const LT: Byte := 0x3C
  const GT: Byte := 0x3E
  const DOT: Byte := 0x2E
  const ELLIPSIS: Bytes := [DOT, DOT, DOT]

  // ----- Tags: one left-to-right pass of the regular expression <[^>]*>

  function IndexOf(s: Bytes, b: Byte): (i: nat)
    requires b in s
    ensures i < |s| && s[i] == b && b !in s[..i]
  {
    if s[0] == b then 0 else 1 + IndexOf(s[1..], b)
  }

  function RemoveTags(s: Bytes): Bytes {
    if s == [] then []
    else if s[0] == LT && GT in s then RemoveTags(s[IndexOf(s, GT) + 1..])
    else [s[0]] + RemoveTags(s[1..])
  }

  /** No complete tag: no '<' is followed by a '>'. */
  ghost predicate TagFree(s: Bytes) {
    forall i, j :: 0 <= i < j < |s| ==> !(s[i] == '<' as int && s[j] == '>' as int)
  }

  lemma {:induction false} RemoveTagsAddsNothing(s: Bytes)
    ensures |RemoveTags(s)| <= |s|
    ensures forall b :: b in RemoveTags(s) ==> b in s
  {
    if s == [] {
    } else if s[0] == LT && GT in s {
      RemoveTagsAddsNothing(s[IndexOf(s, GT) + 1..]);
    } else {
      RemoveTagsAddsNothing(s[1..]);
    }
  }

  /** One pass already leaves nothing to match. */
  lemma {:induction false} OnePassIsEnough(s: Bytes)
    ensures TagFree(RemoveTags(s))
  {
    if s == [] {
    } else if s[0] == LT && GT in s {
      OnePassIsEnough(s[IndexOf(s, GT) + 1..]);
    } else {
      var rest := RemoveTags(s[1..]);
      OnePassIsEnough(s[1..]);
      RemoveTagsAddsNothing(s[1..]);
      assert s[0] == LT ==> GT !in rest;
      assert RemoveTags(s) == [s[0]] + rest;
    }
  }

  lemma {:induction false} TagFreeIsKept(s: Bytes)
    requires TagFree(s)
    ensures RemoveTags(s) == s
  {
    if s != [] {
      assert s[0] == LT ==> GT !in s;
      TagFreeIsKept(s[1..]);
    }
  }

  /** The loop around the regular expression: the result of one pass, found after at most two. */
  method StripTags(text: Bytes) returns (r: Bytes, passes: nat)
    ensures r == RemoveTags(text) && TagFree(r)
    ensures passes <= 2
    ensures passes == 1 <==> TagFree(text)
  {
    r, passes := text, 0;
    OnePassIsEnough(text);
    while true
      invariant passes == 0 ==> r == text
      invariant passes > 0 ==> passes == 1 && r == RemoveTags(text) && !TagFree(text)
      decreases 1 - passes
    {
      var stripped := RemoveTags(r);
      passes := passes + 1;
      if passes == 2 || TagFree(text) {
        TagFreeIsKept(r);
      }
      if stripped == r {
        break;
      }
      r := stripped;
    }
  }

  // ----- What one pass removes, position by position

  /** Position p lies in a tag: an open '<' reaches it, and some '>' is still to come. */
  ghost predicate InTag(s: Bytes, p: nat)
    requires p < |s|
  {
    && (exists i :: 0 <= i <= p && s[i] == '<' as int && '>' as int !in s[i..p])
    && '>' as int in s[p..]
  }

  /** What is left without the positions that lie in tags. */
  ghost function Outside(s: Bytes, p: nat): Bytes
    requires p <= |s|
    decreases |s| - p
  {
    if p == |s| then [] else (if InTag(s, p) then [] else [s[p]]) + Outside(s, p + 1)
  }

  /** A '<' before p is still open at p and will be closed. */
  ghost predicate OpenAt(s: Bytes, p: nat)
    requires p <= |s|
  {
    (exists i :: 0 <= i < p && s[i] == LT && GT !in s[i..p]) && GT in s[p..]
  }

  lemma {:induction false} TagIsSkipped(s: Bytes, i: nat, p: nat, j: nat)
    requires i <= j < |s| && i <= p <= j + 1 && s[i] == LT && s[j] == GT && GT !in s[i..j]
    ensures Outside(s, p) == Outside(s, j + 1)
    decreases j + 1 - p
  {
    if p <= j {
      assert GT !in s[i..p] by {
        assert forall b :: b in s[i..p] ==> b in s[i..j];
      }
      assert s[p..][j - p] == GT;
      TagIsSkipped(s, i, p + 1, j);
    }
  }

  lemma ClosedAfter(s: Bytes, j: nat)
    requires j < |s| && s[j] == GT
    ensures !OpenAt(s, j + 1)
  {
    forall i | 0 <= i <= j && s[i] == LT
      ensures GT in s[i..j + 1]
    {
      assert s[i..j + 1][j - i] == GT;
    }
  }

  /** The pass jumps from a tag that starts at p to just after its '>'. */
  lemma TagEnd(s: Bytes, p: nat) returns (j: nat)
    requires p < |s| && s[p] == LT && GT in s[p..]
    ensures p <= j < |s| && s[j] == GT && GT !in s[p..j]
    ensures RemoveTags(s[p..]) == RemoveTags(s[j + 1..])
  {
    var rest := s[p..];
    var n := IndexOf(rest, GT);
    j := p + n;
    assert s[p..j] == rest[..n];
    assert rest[n + 1..] == s[j + 1..];
  }

  lemma {:induction false} RemoveTagsFrom(s: Bytes, p: nat)
    requires p <= |s| && !OpenAt(s, p)
    ensures RemoveTags(s[p..]) == Outside(s, p)
    decreases |s| - p
  {
    if p == |s| {
    } else if s[p] == LT && GT in s[p..] {
      var j := TagEnd(s, p);
      TagIsSkipped(s, p, p, j);
      ClosedAfter(s, j);
      RemoveTagsFrom(s, j + 1);
    } else {
      NotOpenedHere(s, p);
      RemoveTagsFrom(s, p + 1);
      assert s[p..][1..] == s[p + 1..];
    }
  }

  lemma NotOpenedHere(s: Bytes, p: nat)
    requires p < |s| && !OpenAt(s, p) && !(s[p] == LT && GT in s[p..])
    ensures !InTag(s, p) && !OpenAt(s, p + 1)
  {
    if GT in s[p..] {
      forall i | 0 <= i < p && s[i] == LT
        ensures GT in s[i..p] && GT in s[i..p + 1]
      {
        assert s[i..p + 1] == s[i..p] + [s[p]];
      }
    } else {
      assert s[p..] == [s[p]] + s[p + 1..];
    }
  }

  /** A pass keeps exactly the positions outside every tag. */
  lemma RemoveTagsKeepsOutside(s: Bytes)
    ensures RemoveTags(s) == Outside(s, 0)
  {
    assert s[0..] == s;
    RemoveTagsFrom(s, 0);
  }

  // ----- White space

  // The UTF-8 encodings of the code points with the White_Space property, by length.

  predicate Space1(a: Byte) {
    9 <= a <= 13 || a == 32
  }

  predicate Space2(a: Byte, b: Byte) {
    a == 0xC2 && (b == 0x85 || b == 0xA0)
  }

  predicate Space3(a: Byte, b: Byte, c: Byte) {
    || (a == 0xE1 && b == 0x9A && c == 0x80)
    || (a == 0xE2 && b == 0x80 && (0x80 <= c <= 0x8A || c == 0xA8 || c == 0xA9 || c == 0xAF))
    || (a == 0xE2 && b == 0x81 && c == 0x9F)
    || (a == 0xE3 && b == 0x80 && c == 0x80)
  }

  /** Length of the white space code point s starts with, 0 if it starts with none. */
  function FirstSpace(s: Bytes): (n: nat)
    ensures n <= |s|
  {
    if |s| >= 1 && Space1(s[0]) then 1
    else if |s| >= 2 && Space2(s[0], s[1]) then 2
    else if |s| >= 3 && Space3(s[0], s[1], s[2]) then 3
    else 0
  }

  /** Length of the white space code point s ends with, 0 if it ends with none. */
  function LastSpace(s: Bytes): (n: nat)
    ensures n <= |s|
  {
    if |s| >= 1 && Space1(s[|s| - 1]) then 1
    else if |s| >= 2 && Space2(s[|s| - 2], s[|s| - 1]) then 2
    else if |s| >= 3 && Space3(s[|s| - 3], s[|s| - 2], s[|s| - 1]) then 3
    else 0
  }

  function TrimLeft(s: Bytes): Bytes {
    if FirstSpace(s) == 0 then s else TrimLeft(s[FirstSpace(s)..])
  }

  function TrimRight(s: Bytes): Bytes {
    if LastSpace(s) == 0 then s else TrimRight(s[..|s| - LastSpace(s)])
  }

  function TrimSpace(s: Bytes): Bytes {
    TrimRight(TrimLeft(s))
  }

  /** Number of bytes of white space at the front. */
  function Lead(s: Bytes): nat {
    if FirstSpace(s) == 0 then 0 else FirstSpace(s) + Lead(s[FirstSpace(s)..])
  }

  lemma {:induction false} TrimLeftDropsLead(s: Bytes)
    ensures Lead(s) <= |s| && TrimLeft(s) == s[Lead(s)..] && FirstSpace(TrimLeft(s)) == 0
  {
    if FirstSpace(s) > 0 {
      TrimLeftDropsLead(s[FirstSpace(s)..]);
    }
  }

  lemma {:induction false} TrimRightIsPrefix(s: Bytes)
    ensures TrimRight(s) <= s && LastSpace(TrimRight(s)) == 0
  {
    if LastSpace(s) > 0 {
      TrimRightIsPrefix(s[..|s| - LastSpace(s)]);
    }
  }

  lemma PrefixHasNoFirstSpace(p: Bytes, s: Bytes)
    requires p <= s && FirstSpace(s) == 0
    ensures FirstSpace(p) == 0
  {
  }

  lemma TrimSpaceTrims(s: Bytes)
    ensures FirstSpace(TrimSpace(s)) == 0 && LastSpace(TrimSpace(s)) == 0
    ensures TrimSpace(TrimSpace(s)) == TrimSpace(s)
  {
    TrimLeftDropsLead(s);
    TrimRightIsPrefix(TrimLeft(s));
    PrefixHasNoFirstSpace(TrimSpace(s), TrimLeft(s));
  }

  /** The marker is neither white space nor part of a code point that is. */
  lemma EllipsisEndsSpace(s: Bytes)
    ensures FirstSpace(s + ELLIPSIS) == FirstSpace(s)
    ensures LastSpace(s + ELLIPSIS) == 0
  {
    var t := s + ELLIPSIS;
    assert t[|t| - 1] == DOT;
  }

  lemma {:induction false} TrimMarked(s: Bytes)
    ensures TrimSpace(s + ELLIPSIS) == TrimLeft(s) + ELLIPSIS
  {
    TrimLeftMarked(s);
    EllipsisEndsSpace(TrimLeft(s));
  }

  lemma {:induction false} TrimLeftMarked(s: Bytes)
    ensures TrimLeft(s + ELLIPSIS) == TrimLeft(s) + ELLIPSIS
  {
    EllipsisEndsSpace(s);
    var n := FirstSpace(s);
    if n > 0 {
      assert (s + ELLIPSIS)[n..] == s[n..] + ELLIPSIS;
      TrimLeftMarked(s[n..]);
    }
  }

  // ----- What trimming cuts off

  /** One white space code point. */
  ghost predicate OneSpace(s: Bytes) {
    || (|s| == 1 && Space1(s[0]))
    || (|s| == 2 && Space2(s[0], s[1]))
    || (|s| == 3 && Space3(s[0], s[1], s[2]))
  }

  function Concat(parts: seq<Bytes>): Bytes {
    if parts == [] then [] else parts[0] + Concat(parts[1..])
  }

  ghost predicate AllSpaces(parts: seq<Bytes>) {
    forall i :: 0 <= i < |parts| ==> OneSpace(parts[i])
  }

  /** A concatenation of white space code points. */
  ghost predicate Blank(s: Bytes) {
    exists parts :: AllSpaces(parts) && Concat(parts) == s
  }

  /** Neither begins nor ends with a white space code point. */
  ghost predicate NoOuterSpace(s: Bytes) {
    var n := |s|;
    && (n >= 1 ==> !Space1(s[0]) && !Space1(s[n - 1]))
    && (n >= 2 ==> !Space2(s[0], s[1]) && !Space2(s[n - 2], s[n - 1]))
    && (n >= 3 ==> !Space3(s[0], s[1], s[2]) && !Space3(s[n - 3], s[n - 2], s[n - 1]))
  }

  /** The three kinds of white space are exactly the UTF-8 encodings of Unicode's. */
  lemma SpacesAreUnicode(a: Byte, b: Byte, c: Byte)
    ensures Space1(a) <==> a < 0x80 && Text.IsSpaceCode(a)
    ensures Space2(a, b) <==>
            0xC2 <= a < 0xE0 && 0x80 <= b < 0xC0 && Text.IsSpaceCode((a - 0xC0) * 0x40 + (b - 0x80))
    ensures Space3(a, b, c) <==>
            && 0xE0 <= a < 0xF0 && 0x80 <= b < 0xC0 && 0x80 <= c < 0xC0
            && (a - 0xE0) * 0x1000 + (b - 0x80) * 0x40 + (c - 0x80) >= 0x800
            && Text.IsSpaceCode((a - 0xE0) * 0x1000 + (b - 0x80) * 0x40 + (c - 0x80))
  {
  }

  lemma ConcatFirst(first: Bytes, rest: seq<Bytes>)
    ensures Concat([first] + rest) == first + Concat(rest)
  {
    assert ([first] + rest)[1..] == rest;
  }

  lemma Assoc(a: Bytes, b: Bytes, c: Bytes)
    ensures a + (b + c) == a + b + c
  {
  }

  lemma {:induction false} ConcatAppends(p: seq<Bytes>, q: seq<Bytes>)
    ensures Concat(p + q) == Concat(p) + Concat(q)
    decreases |p|, 1
  {
    if p == [] {
      assert p + q == q;
    } else {
      ConcatStep(p[0], p[1..], q);
      assert p == [p[0]] + p[1..];
    }
  }

  lemma {:induction false} ConcatStep(first: Bytes, rest: seq<Bytes>, q: seq<Bytes>)
    ensures Concat([first] + rest + q) == Concat([first] + rest) + Concat(q)
    decreases |rest| + 1, 0
  {
    ConcatAppends(rest, q);
    ConcatFirst(first, rest);
    ConcatFirst(first, rest + q);
    Assoc(first, Concat(rest), Concat(q));
    assert [first] + rest + q == [first] + (rest + q);
  }

  lemma BlankAppends(s: Bytes, t: Bytes)
    requires Blank(s) && Blank(t)
    ensures Blank(s + t)
  {
    var p :| AllSpaces(p) && Concat(p) == s;
    var q :| AllSpaces(q) && Concat(q) == t;
    ConcatAppends(p, q);
    assert AllSpaces(p + q);
  }

  lemma NothingIsBlank()
    ensures Blank([])
  {
    assert AllSpaces([]) && Concat([]) == [];
  }

  lemma OneSpaceIsBlank(s: Bytes)
    requires OneSpace(s)
    ensures Blank(s)
  {
    assert AllSpaces([s]) && [s][1..] == [] && Concat([s]) == s + Concat([]);
  }

  lemma {:induction false} LeadIsBlank(s: Bytes)
    ensures Lead(s) <= |s| && Blank(s[..Lead(s)])
  {
    var n := FirstSpace(s);
    if n > 0 {
      LeadIsBlank(s[n..]);
      OneSpaceIsBlank(s[..n]);
      BlankAppends(s[..n], s[n..][..Lead(s[n..])]);
      assert s[..n] + s[n..][..Lead(s[n..])] == s[..Lead(s)];
    } else {
      NothingIsBlank();
    }
  }

  lemma {:induction false} LongerTail(s: Bytes, m: nat, k: nat)
    requires k <= m <= |s| && Blank(s[..m][k..]) && OneSpace(s[m..])
    ensures Blank(s[k..])
  {
    OneSpaceIsBlank(s[m..]);
    BlankAppends(s[..m][k..], s[m..]);
    assert s[..m][k..] + s[m..] == s[k..];
  }

  lemma {:induction false} TailIsBlank(s: Bytes)
    ensures TrimRight(s) <= s && Blank(s[|TrimRight(s)|..])
  {
    var n := LastSpace(s);
    if n > 0 {
      TailIsBlank(s[..|s| - n]);
      LongerTail(s, |s| - n, |TrimRight(s)|);
    } else {
      NothingIsBlank();
      assert s[|s|..] == [];
    }
  }

  /** Trimming cuts off white space at both ends, and no more than that. */
  lemma TrimSpaceCuts(s: Bytes) returns (a: nat, b: nat)
    ensures a <= b <= |s| && TrimSpace(s) == s[a..b]
    ensures Blank(s[..a]) && Blank(s[b..]) && NoOuterSpace(s[a..b])
  {
    LeadIsBlank(s);
    TrimLeftDropsLead(s);
    TailIsBlank(TrimLeft(s));
    TrimSpaceTrims(s);
    a := Lead(s);
    b := a + |TrimSpace(s)|;
    assert TrimLeft(s)[|TrimSpace(s)|..] == s[b..];
    SpaceFreeEnds(TrimSpace(s));
  }

  lemma SpaceFreeEnds(s: Bytes)
    requires FirstSpace(s) == 0 && LastSpace(s) == 0
    ensures NoOuterSpace(s)
  {
  }

  // ----- The sanitiser

  function Cut(t: Bytes, maxLen: nat): Bytes {
    if |t| > maxLen then t[..maxLen] + ELLIPSIS else t
  }

  function Sanitized(s: Bytes, maxLen: nat): Bytes {
    TrimSpace(Cut(RemoveTags(s), maxLen))
  }

  method SanitizeInputWithLimit(text: Bytes, maxLen: nat) returns (r: Bytes)
    ensures r == Sanitized(text, maxLen)
    ensures |r| <= maxLen + 3 && TagFree(r)
  {
    var passes;
    r, passes := StripTags(text);
    if |r| > maxLen {
      r := r[..maxLen] + ELLIPSIS;
    }
    r := TrimSpace(r);
    SanitizedIsClean(text, maxLen);
  }

  lemma TrimSpaceIsSlice(s: Bytes) returns (a: nat, b: nat)
    ensures a <= b <= |s| && TrimSpace(s) == s[a..b]
  {
    TrimLeftDropsLead(s);
    TrimRightIsPrefix(TrimLeft(s));
    a := Lead(s);
    b := a + |TrimSpace(s)|;
  }

  lemma CutIsTagFree(t: Bytes, maxLen: nat)
    requires TagFree(t)
    ensures TagFree(Cut(t, maxLen)) && |Cut(t, maxLen)| <= maxLen + 3
  {
  }

  /** Cutting and trimming cannot bring a tag back. */
  lemma SanitizedIsClean(s: Bytes, maxLen: nat)
    ensures TagFree(Sanitized(s, maxLen))
    ensures |Sanitized(s, maxLen)| <= maxLen + 3
    ensures FirstSpace(Sanitized(s, maxLen)) == 0 && LastSpace(Sanitized(s, maxLen)) == 0
  {
    var t := RemoveTags(s);
    OnePassIsEnough(s);
    CutIsTagFree(t, maxLen);
    var a, b := TrimSpaceIsSlice(Cut(t, maxLen));
    TrimSpaceTrims(Cut(t, maxLen));
  }

  /**
   What the sanitiser returns: the text outside the tags, cut to maxLen bytes and marked if it is longer,
   without the white space it begins and ends with.
   */
  lemma SanitizedIs(s: Bytes, maxLen: nat) returns (a: nat, b: nat)
    ensures var t := Outside(s, 0);
            && a <= b <= |t| && Blank(t[..a])
            && if |t| <= maxLen
               then Sanitized(s, maxLen) == t[a..b] && Blank(t[b..]) && NoOuterSpace(t[a..b])
               else b == maxLen && Sanitized(s, maxLen) == t[a..b] + ['.' as int, '.' as int, '.' as int]
                    && NoOuterSpace(Sanitized(s, maxLen))
  {
    RemoveTagsKeepsOutside(s);
    var t := RemoveTags(s);
    if |t| <= maxLen {
      a, b := TrimSpaceCuts(t);
    } else {
      var head := t[..maxLen];
      TrimMarked(head);
      TrimLeftDropsLead(head);
      LeadIsBlank(head);
      a, b := Lead(head), maxLen;
      assert head[..a] == t[..a] && head[a..] == t[a..b];
      SanitizedIsClean(s, maxLen);
      SpaceFreeEnds(Sanitized(s, maxLen));
    }
  }

  /** The only inputs a second application changes: cut, after one or two bytes of white space. */
  predicate Shifts(s: Bytes, maxLen: nat) {
    var t := RemoveTags(s);
    |t| > maxLen && 1 <= Lead(t[..maxLen]) <= 2
  }

  /** The result for a text that was cut, and what a second application does to it. */
  lemma CutTwice(s: Bytes, maxLen: nat)
    requires |RemoveTags(s)| > maxLen
    ensures var head := RemoveTags(s)[..maxLen];
            var once := Sanitized(s, maxLen);
            && Lead(head) <= maxLen
            && once == head[Lead(head)..] + ELLIPSIS
            && RemoveTags(once) == once
            && Sanitized(once, maxLen) == (if Lead(head) < 3 then once[..maxLen] + ELLIPSIS else once)
            && (Lead(head) < 3 ==> Lead(once[..maxLen]) == 0)
  {
    var head := RemoveTags(s)[..maxLen];
    var once := Sanitized(s, maxLen);
    TrimMarked(head);
    TrimLeftDropsLead(head);
    SanitizedIsClean(s, maxLen);
    TagFreeIsKept(once);
    if Lead(head) < 3 {
      PrefixHasNoFirstSpace(once[..maxLen], once);
      TrimMarked(once[..maxLen]);
    }
  }

  /** One application is a fixed point exactly when the input is not one that shifts. */
  lemma {:induction false} IdempotentIff(s: Bytes, maxLen: nat)
    ensures Sanitized(Sanitized(s, maxLen), maxLen) == Sanitized(s, maxLen) <==> !Shifts(s, maxLen)
  {
    var t := RemoveTags(s);
    var once := Sanitized(s, maxLen);
    if |t| > maxLen {
      CutTwice(s, maxLen);
      if Lead(t[..maxLen]) == 0 {
        assert once[..maxLen] == t[..maxLen];
      }
    } else {
      SanitizedIsClean(s, maxLen);
      TagFreeIsKept(once);
      TrimSpaceTrims(t);
      var a, b := TrimSpaceIsSlice(t);
    }
  }

  /** Two applications always reach a fixed point. */
  lemma {:induction false} TwiceIsStable(s: Bytes, maxLen: nat)
    ensures var twice := Sanitized(Sanitized(s, maxLen), maxLen);
            Sanitized(twice, maxLen) == twice
  {
    IdempotentIff(s, maxLen);
    if Shifts(s, maxLen) {
      CutTwice(s, maxLen);
      IdempotentIff(Sanitized(s, maxLen), maxLen);
    }
  }

  function Iterate(s: Bytes, maxLen: nat, n: nat): Bytes
    decreases n
  {
    if n == 0 then s else Iterate(Sanitized(s, maxLen), maxLen, n - 1)
  }

  lemma {:induction false} FixedStaysFixed(s: Bytes, maxLen: nat, n: nat)
    requires Sanitized(s, maxLen) == s
    ensures Iterate(s, maxLen, n) == s
    decreases n
  {
    if n > 0 {
      FixedStaysFixed(s, maxLen, n - 1);
    }
  }

  /** However often a message is sanitised after the second time, it stays the same. */
  lemma {:induction false} SanitisingSettles(s: Bytes, maxLen: nat, n: nat)
    ensures var twice := Sanitized(Sanitized(s, maxLen), maxLen);
            Iterate(twice, maxLen, n) == twice
  {
    TwiceIsStable(s, maxLen);
    FixedStaysFixed(Sanitized(Sanitized(s, maxLen), maxLen), maxLen, n);
  }

  /** A blank in front of a text that is cut: sanitising once is not enough. */
  lemma {:induction false} OnceIsNotEnough()
    ensures Sanitized([32, 97], 1) == ELLIPSIS
    ensures Sanitized(ELLIPSIS, 1) == [DOT] + ELLIPSIS
  {
    var s: Bytes := [32, 97];
    assert TagFree(s);
    TagFreeIsKept(s);
    var head := s[..1];
    assert FirstSpace(head) == 1 && Lead(head[1..]) == 0;
    CutTwice(s, 1);
  }

  // ----- The path of a WebSocket message

  /** Trimmed and sanitised by the handler, then sanitised again by the broadcast. */
  function WebSocketText(message: Bytes, maxLen: nat): Bytes {
    Sanitized(Sanitized(TrimSpace(message), maxLen), maxLen)
  }

  lemma {:induction false} WebSocketTextIsFinal(message: Bytes, maxLen: nat)
    ensures Sanitized(WebSocketText(message, maxLen), maxLen) == WebSocketText(message, maxLen)
    ensures TagFree(WebSocketText(message, maxLen)) && |WebSocketText(message, maxLen)| <= maxLen + 3
  {
    TwiceIsStable(TrimSpace(message), maxLen);
    SanitizedIsClean(Sanitized(TrimSpace(message), maxLen), maxLen);
  }

  lemma StartsWithSpace(space: Bytes, s: Bytes)
    requires OneSpace(space)
    ensures FirstSpace(space + s) == |space| && TrimLeft(space + s) == TrimLeft(s)
  {
    assert forall i :: 0 <= i < |space| ==> (space + s)[i] == space[i];
    assert (space + s)[|space|..] == s;
  }

  lemma {:induction false} TrimLeftSkips(parts: seq<Bytes>, s: Bytes)
    requires AllSpaces(parts)
    ensures TrimLeft(Concat(parts) + s) == TrimLeft(s)
  {
    if parts == [] {
      assert Concat(parts) + s == s;
    } else {
      TrimLeftSkips(parts[1..], s);
      StartsWithSpace(parts[0], Concat(parts[1..]) + s);
      assert Concat(parts) + s == parts[0] + (Concat(parts[1..]) + s);
    }
  }

  /** White space in front of a message makes no difference, not even to where it is cut. */
  lemma {:induction false} LeadingBlanksDoNotMatter(blank: Bytes, message: Bytes, maxLen: nat)
    requires Blank(blank)
    ensures WebSocketText(blank + message, maxLen) == WebSocketText(message, maxLen)
  {
    var parts :| AllSpaces(parts) && Concat(parts) == blank;
    TrimLeftSkips(parts, message);
  }
}
