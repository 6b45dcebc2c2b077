/** The `site:` token of a chat message: the controller's pattern
    `(?:^|\W)site:(\w+)(?:\W|$)`, written as an explicit scanner, used once to
    pick the slug (first match) and once, globally, to strip the tokens. The
    pattern has no `u` flag, so it reads the message as UTF-16 code units. */
module SiteToken {
  import opened Common
  import opened Utf16

  const Keyword: Units := ['s' as int, 'i' as int, 't' as int, 'e' as int, ':' as int]

  const Colon: Unit := ':' as int

  /** What each token is replaced with. */
  const Blank: Unit := ' ' as int

  /** `Keyword` spelled out at position `k` of the text. */
  predicate KeywordAt(t: Units, k: int)
  {
    && 0 <= k && k + 5 <= |t|
    && t[k] == 's' as int && t[k + 1] == 'i' as int && t[k + 2] == 't' as int
    && t[k + 3] == 'e' as int && t[k + 4] == Colon
  }

  /** The slug used when the message names no site. */
  const DefaultSlug: string := "stackoverflow"

  /** `\w` of a pattern without the `u` flag: an ASCII letter, digit or `_`. */
  predicate IsWordChar(u: int)
  {
    'A' as int <= u <= 'Z' as int || 'a' as int <= u <= 'z' as int || '0' as int <= u <= '9' as int || u == '_' as int
  }

  predicate IsWord(w: Units)
  {
    |w| > 0 && forall i :: 0 <= i < |w| ==> IsWordChar(w[i])
  }

  /** A slug as the site list spells it: a non-empty run of word characters. */
  predicate IsSlug(s: string)
  {
    |s| > 0 && forall i :: 0 <= i < |s| ==> IsWordChar(s[i] as int)
  }

  /** One match: `start..end` is the text consumed, separators included, and
      `slugStart..slugEnd` the captured group. */
  datatype Match = Match(start: nat, slugStart: nat, slugEnd: nat, end: nat)

  /** `j` ends the run of word characters that begins at `i`. */
  predicate IsRunEnd(t: Units, i: nat, j: nat)
  {
    && i <= j <= |t|
    && (forall k :: i <= k < j ==> IsWordChar(t[k]))
    && (j == |t| || !IsWordChar(t[j]))
  }

  /** `(?:^|\W)`: the match opens at the very start of the text or with one
      non-word character. */
  predicate Opens(t: Units, m: Match)
  {
    || (m.start == 0 && m.slugStart == 5)
    || (m.start < |t| && !IsWordChar(t[m.start]) && m.slugStart == m.start + 6)
  }

  /** The pattern read declaratively: an opening, the keyword, a maximal
      non-empty run of word characters, and the following non-word character
      if there is one. */
  ghost predicate IsMatch(t: Units, m: Match)
  {
    && Opens(t, m)
    && m.slugStart < m.slugEnd
    && IsRunEnd(t, m.slugStart, m.slugEnd)
    && KeywordAt(t, m.slugStart - 5)
    && m.end == (if m.slugEnd < |t| then m.slugEnd + 1 else m.slugEnd)
  }

  /** The leftmost match, the one a non-global search reports. */
  ghost predicate IsFirstMatch(t: Units, m: Match)
  {
    IsMatch(t, m) && forall m' :: IsMatch(t, m') ==> m.start <= m'.start
  }

  /** The end of the run of word characters that begins at `i`. */
  function WordRunEnd(t: Units, i: nat): (j: nat)
    requires i <= |t|
    ensures IsRunEnd(t, i, j)
    decreases |t| - i
  {
    if i < |t| && IsWordChar(t[i]) then WordRunEnd(t, i + 1) else i
  }

  /** A run has one end. */
  lemma RunEndUnique(t: Units, i: nat, j: nat)
    requires IsRunEnd(t, i, j)
    ensures WordRunEnd(t, i) == j
  {
  }

  /** `site:(\w+)(?:\W|$)` tried at position `k`, for a match that began at `start`. */
  function MatchTail(t: Units, start: nat, k: nat): Option<Match>
    requires k <= |t|
  {
    if KeywordAt(t, k) then
      var e := WordRunEnd(t, k + 5);
      if e == k + 5 then None else Some(Match(start, k + 5, e, if e < |t| then e + 1 else e))
    else
      None
  }

  /** The pattern tried at position `p`: the `^` alternative first, then `\W`. */
  function MatchAt(t: Units, p: nat): (r: Option<Match>)
    requires p <= |t|
    ensures r.Some? ==> IsMatch(t, r.value) && r.value.start == p
  {
    if p == 0 && MatchTail(t, 0, 0).Some? then MatchTail(t, 0, 0)
    else if p < |t| && !IsWordChar(t[p]) then MatchTail(t, p, p + 1)
    else None
  }

  /** The keyword is found wherever it stands. */
  lemma TailFinds(t: Units, m: Match, k: nat)
    requires IsMatch(t, m) && k == m.slugStart - 5
    ensures MatchTail(t, m.start, k) == Some(m)
  {
    RunEndUnique(t, m.slugStart, m.slugEnd);
  }

  /** A copy of the keyword is the keyword spelled out. */
  lemma KeywordSpelled(t: Units, k: nat)
    requires k + 5 <= |t| && t[k..k + 5] == Keyword
    ensures KeywordAt(t, k)
  {
    assert t[k..k + 5][0] == 's' as int && t[k..k + 5][1] == 'i' as int && t[k..k + 5][2] == 't' as int;
    assert t[k..k + 5][3] == 'e' as int && t[k..k + 5][4] == Colon;
  }

  /** A match opened by `^` is found by the first alternative. */
  lemma MatchAtFindsAtStart(t: Units, m: Match)
    requires IsMatch(t, m) && m.start == 0 && m.slugStart == 5
    ensures MatchAt(t, m.start) == Some(m)
  {
    TailFinds(t, m, 0);
  }

  /** A match opened by `\W` away from the start is found by the second alternative. */
  lemma MatchAtFindsAfterSeparator(t: Units, m: Match)
    requires IsMatch(t, m) && m.start != 0
    ensures MatchAt(t, m.start) == Some(m)
  {
    TailFinds(t, m, m.start + 1);
  }

  /** A match opened by `\W` at the start: the first alternative cannot
      succeed there, so the second one finds it. */
  lemma MatchAtFindsSeparatorAtStart(t: Units, m: Match)
    requires IsMatch(t, m) && m.start == 0 && m.slugStart != 5
    ensures MatchAt(t, m.start) == Some(m)
  {
    TailFinds(t, m, 1);
  }

  /** The scanner misses no match, and finds each one whole. */
  lemma MatchAtFinds(t: Units, m: Match)
    requires IsMatch(t, m)
    ensures m.start <= |t|
    ensures MatchAt(t, m.start) == Some(m)
  {
    if m.start != 0 {
      MatchAtFindsAfterSeparator(t, m);
    } else if m.slugStart == 5 {
      MatchAtFindsAtStart(t, m);
    } else {
      MatchAtFindsSeparatorAtStart(t, m);
    }
  }

  /** The leftmost match that starts at or after `from` (the scan of a global
      search resuming after the previous match). */
  function FirstMatchFrom(t: Units, from: nat): (r: Option<Match>)
    requires from <= |t|
    ensures r.Some? ==> IsMatch(t, r.value) && from <= r.value.start
    ensures r.Some? ==> forall m :: IsMatch(t, m) && from <= m.start ==> r.value.start <= m.start
    ensures r.None? ==> forall m :: IsMatch(t, m) ==> m.start < from
    decreases |t| - from
  {
    match MatchAt(t, from)
    case Some(m) => Some(m)
    case None =>
      assert forall m :: IsMatch(t, m) ==> m.start != from by {
        forall m | IsMatch(t, m) ensures m.start != from {
          MatchAtFinds(t, m);
        }
      }
      if from == |t| then None else FirstMatchFrom(t, from + 1)
  }

  /** Two matches that start together are the same match. */
  lemma MatchUnique(t: Units, m: Match, m': Match)
    requires IsMatch(t, m) && IsMatch(t, m') && m.start == m'.start
    ensures m == m'
  {
    MatchAtFinds(t, m);
    MatchAtFinds(t, m');
  }

  /** The scan from the start reports the leftmost match, whichever it is. */
  lemma ScanFindsFirstMatch(t: Units, m: Match)
    requires IsFirstMatch(t, m)
    ensures FirstMatchFrom(t, 0) == Some(m)
  {
    var f := FirstMatchFrom(t, 0);
    assert f.Some?;
    MatchUnique(t, f.value, m);
  }

  /** The captured group of a match is a word. */
  lemma SlugIsWord(t: Units, m: Match)
    requires IsMatch(t, m)
    ensures IsWord(t[m.slugStart..m.slugEnd])
  {
    var w := t[m.slugStart..m.slugEnd];
    forall i | 0 <= i < |w| ensures IsWordChar(w[i]) {
      assert w[i] == t[m.slugStart + i];
    }
  }

  /** The text of a run of word units: each is an ASCII character. */
  function WordText(w: Units): (s: string)
    requires forall i :: 0 <= i < |w| ==> IsWordChar(w[i])
    ensures |s| == |w| && forall i :: 0 <= i < |s| ==> s[i] as int == w[i]
    ensures Encode(s) == w
  {
    if |w| == 0 then []
    else
      var rest := WordText(w[1..]);
      assert IsWordChar(w[0]);
      EncodeBmpCons(w[0] as char, rest);
      assert w == [w[0]] + w[1..];
      [w[0] as char] + rest
  }

  /** The slug a message asks for: the group of the leftmost match, or the default. */
  function ExtractSlug(t: Units): (slug: string)
    ensures IsSlug(slug)
    ensures (forall m :: !IsMatch(t, m)) ==> slug == DefaultSlug
    ensures forall m :: IsFirstMatch(t, m) ==> Encode(slug) == t[m.slugStart..m.slugEnd]
  {
    match FirstMatchFrom(t, 0)
    case None => DefaultSlug
    case Some(m) =>
      SlugIsWord(t, m);
      assert forall m' :: IsFirstMatch(t, m') ==> m' == m by {
        forall m' | IsFirstMatch(t, m') ensures m' == m {
          ScanFindsFirstMatch(t, m');
        }
      }
      WordText(t[m.slugStart..m.slugEnd])
  }

  /** A match consumes the keyword and at least one word character. */
  lemma MatchBounds(t: Units, m: Match)
    requires IsMatch(t, m)
    ensures m.start + 6 <= m.end <= |t|
  {
  }

  /** The global replacement from `from` on: each match, separators included,
      becomes one blank, and the scan resumes after it. */
  function ReplaceFrom(t: Units, from: nat): (r: Units)
    requires from <= |t|
    ensures |r| <= |t| - from
    ensures r == t[from..] <==> FirstMatchFrom(t, from).None?
    decreases |t| - from
  {
    match FirstMatchFrom(t, from)
    case None => t[from..]
    case Some(m) =>
      MatchBounds(t, m);
      t[from..m.start] + [Blank] + ReplaceFrom(t, m.end)
  }

  /** The search text: the message with every `site:` token replaced by a blank. */
  function StripSiteTokens(t: Units): (r: Units)
    ensures |r| <= |t|
    ensures r == t <==> forall m :: !IsMatch(t, m)
  {
    assert t[0..] == t;
    ReplaceFrom(t, 0)
  }

  /** Each step of the global replacement: the leftmost match at or after
      `from` becomes one blank, the text before it is kept, and the
      replacement goes on after it. So every match the scan meets, not only
      the first, is replaced. */
  lemma ReplaceFromLeftmost(t: Units, from: nat, m: Match)
    requires from <= |t| && IsMatch(t, m) && from <= m.start
    requires forall m' :: IsMatch(t, m') && from <= m'.start ==> m.start <= m'.start
    ensures m.end <= |t|
    ensures ReplaceFrom(t, from) == t[from..m.start] + [Blank] + ReplaceFrom(t, m.end)
  {
    MatchBounds(t, m);
    var f := FirstMatchFrom(t, from);
    assert f.Some?;
    MatchUnique(t, f.value, m);
  }

  /** The leftmost match becomes one blank; the text before it is kept and the
      rest is scanned from the end of the match. */
  lemma StripReplacesFirstMatch(t: Units, m: Match)
    requires IsFirstMatch(t, m)
    ensures m.end <= |t|
    ensures StripSiteTokens(t) == t[..m.start] + [Blank] + ReplaceFrom(t, m.end)
  {
    ScanFindsFirstMatch(t, m);
    assert t[0..m.start] == t[..m.start];
  }

  /** Past the start of the text a match needs a non-word unit, then
      the keyword, whose colon lies five units on. */
  lemma NoMatchFrom(t: Units, from: nat)
    requires 0 < from
    requires forall q :: from + 5 <= q < |t| ==> t[q] != Colon
    ensures forall m :: IsMatch(t, m) ==> m.start < from
  {
  }

  /** A message whose only match is its leftmost one: the slug comes from it
      and the match turns into one blank. */
  lemma OnlyMatch(t: Units, m: Match)
    requires IsFirstMatch(t, m)
    requires forall q :: m.end + 5 <= q < |t| ==> t[q] != Colon
    ensures m.end <= |t|
    ensures Encode(ExtractSlug(t)) == t[m.slugStart..m.slugEnd]
    ensures StripSiteTokens(t) == t[..m.start] + [Blank] + t[m.end..]
  {
    StripReplacesFirstMatch(t, m);
    NoMatchFrom(t, m.end);
  }

  /** A token at the very start of the text, closed by a non-word unit,
      is the leftmost match. */
  lemma LeadingTokenMatches(x: Units, c: Unit, rest: Units)
    requires IsWord(x) && !IsWordChar(c)
    ensures var t := Keyword + x + [c] + rest;
      && IsFirstMatch(t, Match(0, 5, 5 + |x|, 6 + |x|))
      && t[5..5 + |x|] == x
      && t[6 + |x|..] == rest
  {
    var t := Keyword + x + [c] + rest;
    var e := 5 + |x|;
    assert t[0..5] == Keyword;
    KeywordSpelled(t, 0);
    assert t[5..e] == x;
    assert t[e] == c;
    assert t[e + 1..] == rest;
    assert IsRunEnd(t, 5, e) by {
      forall k | 5 <= k < e ensures IsWordChar(t[k]) {
        assert t[k] == t[5..e][k - 5];
      }
    }
    assert IsMatch(t, Match(0, 5, e, e + 1));
  }

  /** A suffix with no colon past its first five units keeps the text
      colon-free from five units past where the suffix starts. */
  lemma NoColonPast(t: Units, from: nat, rest: Units)
    requires from <= |t| && t[from..] == rest
    requires forall i :: 5 <= i < |rest| ==> rest[i] != Colon
    ensures forall q :: from + 5 <= q < |t| ==> t[q] != Colon
  {
    forall q | from + 5 <= q < |t| ensures t[q] != Colon {
      assert t[q] == rest[q - from];
    }
  }

  /** A match at the start of the text with no colon from five units past
      its end is the only match: it gives the slug and becomes one blank. */
  lemma StartMatchOnly(t: Units, m: Match, x: Units, rest: Units)
    requires IsFirstMatch(t, m) && m.start == 0 && m.end <= |t|
    requires t[m.slugStart..m.slugEnd] == x && t[m.end..] == rest
    requires forall q :: m.end + 5 <= q < |t| ==> t[q] != Colon
    ensures Encode(ExtractSlug(t)) == x
    ensures StripSiteTokens(t) == [Blank] + rest
  {
    OnlyMatch(t, m);
    assert t[..m.start] == [];
  }

  /** A leading token followed by text with no colon past its first five
      units: the token gives the slug and becomes one blank. */
  lemma LeadingTokenOnly(x: Units, c: Unit, rest: Units)
    requires IsWord(x) && !IsWordChar(c)
    requires forall i :: 5 <= i < |rest| ==> rest[i] != Colon
    ensures Encode(ExtractSlug(Keyword + x + [c] + rest)) == x
    ensures StripSiteTokens(Keyword + x + [c] + rest) == [Blank] + rest
  {
    var t := Keyword + x + [c] + rest;
    LeadingTokenMatches(x, c, rest);
    NoColonPast(t, 6 + |x|, rest);
    StartMatchOnly(t, Match(0, 5, 5 + |x|, 6 + |x|), x, rest);
  }

  /** Two tokens separated by one non-word unit: the first match consumes
      the separator, so the second token is neither at the start nor after a
      non-word unit, and it survives. */
  lemma AdjacentTokensKeepSecond(x: Units, c: Unit, y: Units)
    requires IsWord(x) && !IsWordChar(c) && IsWord(y)
    ensures Encode(ExtractSlug(Keyword + x + [c] + (Keyword + y))) == x
    ensures StripSiteTokens(Keyword + x + [c] + (Keyword + y)) == [Blank] + (Keyword + y)
  {
    var rest := Keyword + y;
    forall i | 5 <= i < |rest| ensures rest[i] != Colon {
      assert rest[i] == y[i - 5];
    }
    LeadingTokenOnly(x, c, rest);
  }

  /** A match that runs to the end of the text is replaced, from its start
      on, by one blank. */
  lemma MatchToEndBlank(t: Units, m: Match)
    requires IsMatch(t, m) && m.end == |t|
    ensures m.start <= |t|
    ensures ReplaceFrom(t, m.start) == [Blank]
  {
    MatchAtFinds(t, m);
    assert FirstMatchFrom(t, m.start) == Some(m);
    assert FirstMatchFrom(t, |t|).None?;
    assert t[m.start..m.start] == [];
  }

  /** A token that runs to the end of the text, opened by a non-word unit at
      `p`, is replaced by one blank. */
  lemma TrailingTokenBlank(t: Units, p: nat, y: Units)
    requires p < |t| && !IsWordChar(t[p]) && IsWord(y)
    requires t[p + 1..] == Keyword + y
    ensures ReplaceFrom(t, p) == [Blank]
  {
    var m := Match(p, p + 6, |t|, |t|);
    assert t[p + 1..p + 6] == Keyword;
    KeywordSpelled(t, p + 1);
    assert IsRunEnd(t, p + 6, |t|) by {
      forall k | p + 6 <= k < |t| ensures IsWordChar(t[k]) {
        assert t[k] == y[k - (p + 6)];
      }
    }
    MatchToEndBlank(t, m);
  }

  /** Two tokens separated by two non-word units: the first match consumes
      only the first unit, so the second one opens the next token, and both
      tokens go. */
  lemma TwoUnitSeparatorRemovesBoth(x: Units, c1: Unit, c2: Unit, y: Units)
    requires IsWord(x) && !IsWordChar(c1) && !IsWordChar(c2) && IsWord(y)
    ensures Encode(ExtractSlug(Keyword + x + [c1] + ([c2] + (Keyword + y)))) == x
    ensures StripSiteTokens(Keyword + x + [c1] + ([c2] + (Keyword + y))) == [Blank, Blank]
  {
    var rest := [c2] + (Keyword + y);
    var t := Keyword + x + [c1] + rest;
    var e := 5 + |x|;
    LeadingTokenMatches(x, c1, rest);
    StartMatchStrip(t, Match(0, 5, e, e + 1));
    assert rest[0] == c2 && rest[1..] == Keyword + y;
    TrailingTokenBlank(t, e + 1, y);
  }

  /** A match at the start of the text becomes one blank, followed by the
      replacement of the rest. */
  lemma StartMatchStrip(t: Units, m: Match)
    requires IsFirstMatch(t, m) && m.start == 0
    ensures m.end <= |t|
    ensures StripSiteTokens(t) == [Blank] + ReplaceFrom(t, m.end)
  {
    StripReplacesFirstMatch(t, m);
    assert t[..m.start] == [];
  }

  /** The case that tells units from characters: a character above U+FFFF
      between two tokens is a surrogate pair, two non-word units, and the
      pattern removes both tokens where a reading by characters would keep
      the second. */
  lemma AstralSeparatorRemovesBoth(x: Units, c: char, y: Units)
    requires IsWord(x) && !IsBmp(c) && IsWord(y)
    ensures Encode(ExtractSlug(Keyword + x + EncodeChar(c) + (Keyword + y))) == x
    ensures StripSiteTokens(Keyword + x + EncodeChar(c) + (Keyword + y)) == [Blank, Blank]
  {
    var pair := EncodeChar(c);
    var hi, lo := pair[0], pair[1];
    assert !IsWordChar(hi) && !IsWordChar(lo);
    assert Keyword + x + pair + (Keyword + y) == Keyword + x + [hi] + ([lo] + (Keyword + y)) by {
      assert pair == [hi] + [lo];
    }
    TwoUnitSeparatorRemovesBoth(x, hi, lo, y);
  }

  /** A leading run of word units closed by a separator other than the
      colon holds no match. */
  lemma NoMatchInWordPrefix(t: Units, p: nat)
    requires p < |t| && !IsWordChar(t[p]) && t[p] != Colon
    requires forall i :: 0 <= i < p ==> IsWordChar(t[i])
    ensures forall m :: IsMatch(t, m) ==> p <= m.start
  {
  }

  /** A token between two words: its slug is taken, and the token with both
      separators becomes one blank. */
  lemma TokenInsideQuestion(pre: Units, x: Units, c: Unit, post: Units)
    requires forall i :: 0 <= i < |pre| ==> IsWordChar(pre[i])
    requires IsWord(x) && !IsWordChar(c)
    requires forall i :: 0 <= i < |post| ==> IsWordChar(post[i])
    ensures Encode(ExtractSlug(pre + [Blank] + Keyword + x + [c] + post)) == x
    ensures StripSiteTokens(pre + [Blank] + Keyword + x + [c] + post) == pre + [Blank] + post
  {
    var t := pre + [Blank] + Keyword + x + [c] + post;
    var p := |pre|;
    var e := p + 6 + |x|;
    var m := Match(p, p + 6, e, e + 1);
    assert t[..p] == pre;
    assert t[p] == Blank;
    assert t[p + 1..p + 6] == Keyword;
    KeywordSpelled(t, p + 1);
    assert t[p + 6..e] == x;
    assert t[e] == c;
    assert t[e + 1..] == post;
    assert IsRunEnd(t, p + 6, e) by {
      forall k | p + 6 <= k < e ensures IsWordChar(t[k]) {
        assert t[k] == t[p + 6..e][k - (p + 6)];
      }
    }
    assert IsMatch(t, m);
    forall i | 0 <= i < p ensures IsWordChar(t[i]) {
      assert t[i] == pre[i];
    }
    NoMatchInWordPrefix(t, p);
    forall q | e + 6 <= q < |t| ensures t[q] != Colon {
      assert t[q] == post[q - (e + 1)];
    }
    OnlyMatch(t, m);
  }

  /** Two leading non-word units: no match starts at the first, since
      neither unit can start the keyword. */
  lemma NoMatchAtFirstUnit(t: Units)
    requires |t| >= 2 && !IsWordChar(t[0]) && !IsWordChar(t[1])
    ensures forall m :: IsMatch(t, m) ==> 1 <= m.start
  {
  }

  /** A leftmost match opened by the second unit, with nothing after it:
      the first unit is kept in front of the blank. */
  lemma SecondUnitMatchOnly(t: Units, m: Match, post: Units)
    requires IsFirstMatch(t, m) && m.start == 1
    requires m.end <= |t| && t[m.end..] == post
    requires forall q :: m.end + 5 <= q < |t| ==> t[q] != Colon
    ensures Encode(ExtractSlug(t)) == t[m.slugStart..m.slugEnd]
    ensures StripSiteTokens(t) == [t[0]] + [Blank] + post
  {
    OnlyMatch(t, m);
    assert t[..m.start] == [t[0]];
  }

  /** A token after two non-word units: the match opens with the second
      one, so the first is kept in front of the blank. */
  lemma TokenAfterTwoSeparators(h: Unit, c: Unit, x: Units, d: Unit, post: Units)
    requires !IsWordChar(h) && !IsWordChar(c) && IsWord(x) && !IsWordChar(d)
    requires forall i :: 0 <= i < |post| ==> IsWordChar(post[i])
    ensures Encode(ExtractSlug([h, c] + Keyword + x + [d] + post)) == x
    ensures StripSiteTokens([h, c] + Keyword + x + [d] + post) == [h] + [Blank] + post
  {
    var t := [h, c] + Keyword + x + [d] + post;
    var e := 7 + |x|;
    var m := Match(1, 7, e, e + 1);
    assert t[0] == h && t[1] == c;
    assert t[2..7] == Keyword;
    KeywordSpelled(t, 2);
    assert t[7..e] == x;
    assert t[e] == d;
    assert t[e + 1..] == post;
    assert IsRunEnd(t, 7, e) by {
      forall k | 7 <= k < e ensures IsWordChar(t[k]) {
        assert t[k] == x[k - 7];
      }
    }
    NoMatchAtFirstUnit(t);
    NoColonPast(t, e + 1, post);
    SecondUnitMatchOnly(t, m, post);
  }

  /** A character above U+FFFF right before a token: the match opens with its
      low surrogate, and the high surrogate is left alone in front of the
      blank. */
  lemma AstralBeforeTokenLeavesHighSurrogate(ch: char, x: Units, post: Units)
    requires !IsBmp(ch) && IsWord(x)
    requires forall i :: 0 <= i < |post| ==> IsWordChar(post[i])
    ensures Encode(ExtractSlug(EncodeChar(ch) + Keyword + x + [Blank] + post)) == x
    ensures StripSiteTokens(EncodeChar(ch) + Keyword + x + [Blank] + post) == [EncodeChar(ch)[0]] + [Blank] + post
  {
    var pair := EncodeChar(ch);
    var hi, lo := pair[0], pair[1];
    assert !IsWordChar(hi) && !IsWordChar(lo);
    assert pair == [hi, lo];
    TokenAfterTwoSeparators(hi, lo, x, Blank, post);
  }
}
