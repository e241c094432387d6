/** escapeHtml of web/app.js: five whole-string replacements in a row. */
module Escape {

  function ReplaceAll(s: string, c: char, entity: string): string {
    if s == [] then [] else (if s[0] == c then entity else [s[0]]) + ReplaceAll(s[1..], c, entity)
  }

  const AMP := "&amp;"
  const LESS := "&lt;"
  const GREATER := "&gt;"
  const QUOT := "&quot;"
  const APOS := "&#39;"

  function ReplaceQuotes(s: string): string {
    ReplaceAll(ReplaceAll(s, '"', QUOT), '\'', APOS)
  }

  function EscapeHtml(s: string): string {
    ReplaceQuotes(ReplaceAll(ReplaceAll(ReplaceAll(s, '&', AMP), '<', LESS), '>', GREATER))
  }

  /** What one character becomes. */
  function Entity(c: char): string {
    if c == '&' then AMP
    else if c == '<' then LESS
    else if c == '>' then GREATER
    else if c == '"' then QUOT
    else if c == '\'' then APOS
    else [c]
  }

  function EachEntity(s: string): string {
    if s == [] then [] else Entity(s[0]) + EachEntity(s[1..])
  }

  /** Reads entities back, left to right, in one pass. */
  function Unescape(s: string): string {
    if s == [] then []
    else if "&amp;" <= s then ['&'] + Unescape(s[5..])
    else if "&lt;" <= s then ['<'] + Unescape(s[4..])
    else if "&gt;" <= s then ['>'] + Unescape(s[4..])
    else if "&quot;" <= s then ['"'] + Unescape(s[6..])
    else if "&#39;" <= s then ['\''] + Unescape(s[5..])
    else [s[0]] + Unescape(s[1..])
  }

  lemma {:induction false} ReplaceAllSplits(a: string, b: string, c: char, entity: string)
    ensures ReplaceAll(a + b, c, entity) == ReplaceAll(a, c, entity) + ReplaceAll(b, c, entity)
  {
    if a == [] {
      assert a + b == b;
    } else {
      assert (a + b)[1..] == a[1..] + b;
      ReplaceAllSplits(a[1..], b, c, entity);
    }
  }

  lemma {:induction false} ReplaceAllAbsent(s: string, c: char, entity: string)
    requires c !in s
    ensures ReplaceAll(s, c, entity) == s
  {
    if s != [] {
      ReplaceAllAbsent(s[1..], c, entity);
    }
  }

  lemma EscapeSplits(a: string, b: string)
    ensures EscapeHtml(a + b) == EscapeHtml(a) + EscapeHtml(b)
  {
    ReplaceAllSplits(a, b, '&', AMP);
    var a1, b1 := ReplaceAll(a, '&', AMP), ReplaceAll(b, '&', AMP);
    ReplaceAllSplits(a1, b1, '<', LESS);
    var a2, b2 := ReplaceAll(a1, '<', LESS), ReplaceAll(b1, '<', LESS);
    ReplaceAllSplits(a2, b2, '>', GREATER);
    var a3, b3 := ReplaceAll(a2, '>', GREATER), ReplaceAll(b2, '>', GREATER);
    ReplaceAllSplits(a3, b3, '"', QUOT);
    ReplaceAllSplits(ReplaceAll(a3, '"', QUOT), ReplaceAll(b3, '"', QUOT), '\'', APOS);
  }

  lemma ReplaceOne(c: char, d: char, entity: string)
    ensures ReplaceAll([c], d, entity) == if c == d then entity else [c]
  {
    assert [c][1..] == [];
  }

  lemma QuotesOfOne(c: char)
    ensures ReplaceQuotes([c]) == if c == '"' then QUOT else if c == '\'' then APOS else [c]
  {
    ReplaceOne(c, '"', QUOT);
    if c == '"' {
      ReplaceAllAbsent(QUOT, '\'', APOS);
    } else {
      ReplaceOne(c, '\'', APOS);
    }
  }

  /** A text that a pass has produced is left alone by the later ones. */
  lemma LaterPassesKeep(s: string)
    requires '<' !in s && '>' !in s && '"' !in s && '\'' !in s
    ensures ReplaceAll(s, '<', LESS) == s && ReplaceAll(s, '>', GREATER) == s && ReplaceQuotes(s) == s
  {
    ReplaceAllAbsent(s, '<', LESS);
    ReplaceAllAbsent(s, '>', GREATER);
    ReplaceAllAbsent(s, '"', QUOT);
    ReplaceAllAbsent(s, '\'', APOS);
  }

  lemma EscapeMarkup(c: char, entity: string)
    requires c in {'&', '<', '>'} && entity == Entity(c)
    ensures EscapeHtml([c]) == entity
  {
    ReplaceOne(c, '&', AMP);
    ReplaceOne(c, '<', LESS);
    ReplaceOne(c, '>', GREATER);
    LaterPassesKeep(entity);
  }

  lemma EscapeOne(c: char)
    ensures EscapeHtml([c]) == Entity(c)
  {
    if c in {'&', '<', '>'} {
      EscapeMarkup(c, Entity(c));
    } else {
      ReplaceOne(c, '&', AMP);
      ReplaceOne(c, '<', LESS);
      ReplaceOne(c, '>', GREATER);
      QuotesOfOne(c);
    }
  }

  /** The five passes do what one pass over the characters would: no pass touches another's output. */
  lemma {:induction false} FivePassesAreOne(s: string)
    ensures EscapeHtml(s) == EachEntity(s)
  {
    if s != [] {
      assert s == [s[0]] + s[1..];
      EscapeSplits([s[0]], s[1..]);
      EscapeOne(s[0]);
      FivePassesAreOne(s[1..]);
    }
  }

  predicate Clean(s: string) {
    '<' !in s && '>' !in s && '"' !in s && '\'' !in s
  }

  lemma {:induction false} EntitiesAreClean(s: string)
    ensures Clean(EachEntity(s))
  {
    if s != [] {
      assert Clean(Entity(s[0]));
      EntitiesAreClean(s[1..]);
    }
  }

  /** No character with a meaning in HTML is left, other than the '&' of an entity. */
  lemma NoMarkupLeft(s: string)
    ensures Clean(EscapeHtml(s))
  {
    FivePassesAreOne(s);
    EntitiesAreClean(s);
  }

  lemma UnescapePlain(c: char, rest: string)
    requires c != '&'
    ensures Unescape([c] + rest) == [c] + Unescape(rest)
  {
    var s := [c] + rest;
    assert s[1..] == rest && s[0] == c;
    assert AMP[0] == '&' && LESS[0] == '&' && GREATER[0] == '&' && QUOT[0] == '&' && APOS[0] == '&';
  }

  lemma UnescapeOne(c: char, rest: string)
    ensures Unescape(Entity(c) + rest) == [c] + Unescape(rest)
  {
    var e := Entity(c);
    if |e| == 1 {
      UnescapePlain(c, rest);
    } else {
      var s := e + rest;
      assert s[|e|..] == rest && e <= s && s[1] == e[1];
      assert AMP[1] == 'a' && LESS[1] == 'l' && GREATER[1] == 'g' && QUOT[1] == 'q' && APOS[1] == '#';
    }
  }

  /** Escaping loses nothing. */
  lemma {:induction false} UnescapeRecovers(s: string)
    ensures Unescape(EscapeHtml(s)) == s
  {
    FivePassesAreOne(s);
    if s != [] {
      FivePassesAreOne(s[1..]);
      UnescapeOne(s[0], EachEntity(s[1..]));
      UnescapeRecovers(s[1..]);
    }
  }
}
