/**
 * `attributesToString` followed by `parseAttributes` in the classic syntax: the text
 * and the dictionary come back unchanged when every token reads back on its own, the
 * text holds nothing the parser would take as an attribute or a wikilink, and the
 * text has no white space at its ends.
 */
module AttributeRoundTrip {
  import opened Wrappers
  import opened Strings
  import opened Dicts
  import opened TodoItems
  import opened AttributeTokens
  import opened AttributeParsing

  /** Entries the classic syntax writes as tokens that read back alone. */
  predicate ClassicEntries(d: Attributes) {
    forall i :: 0 <= i < |d| ==> ClassicKey(d[i].0) && ClassicValue(d[i].1)
  }

  /** No `[[` anywhere from `i` on. */
  predicate NoDoubleBracket(s: string, i: nat) {
    forall j :: i <= j && j + 1 < |s| ==> s[j] != '[' || s[j + 1] != '['
  }

  /** Text that `parseAttributes` leaves alone: no `@`, no `[[`, and trimmed. */
  predicate PlainText(t: string) {
    && Trimmed(t)
    && (forall j :: 0 <= j < |t| ==> t[j] != '@')
    && NoDoubleBracket(t, 0)
  }

  function Spaces(n: nat): (r: string)
    ensures |r| == n && forall j :: 0 <= j < n ==> r[j] == ' '
  {
    if n == 0 then "" else Spaces(n - 1) + " "
  }

  /** `ts` holds the token `attributeToString` writes for each entry of `d`. */
  predicate TokensOf(cfg: Option<Settings>, ts: seq<string>, d: Attributes) {
    |ts| == |d| && forall i :: 0 <= i < |d| ==> TokenIs(cfg, ts, d, i)
  }

  predicate TokenIs(cfg: Option<Settings>, ts: seq<string>, d: Attributes, i: nat)
    requires i < |ts| && i < |d|
  {
    ts[i] == AttributeToString(cfg, d[i].0, d[i].1)
  }

  /** The round trip: the text written by `attributesToString` parses back to the
      structure it was written from. */
  lemma ClassicAttributesRoundTrip(cfg: Option<Settings>, a: AttributesStructure)
    requires !Dataview(cfg)
    requires Valid(a.attributes) && ClassicEntries(a.attributes) && PlainText(a.textWithoutAttributes)
    ensures ParseAttributesSpec(cfg, AttributesToString(cfg, a)) == a
  {
    if a.attributes == [] {
      EmptyRoundTrip(cfg, a);
    } else {
      FullRoundTrip(cfg, a);
    }
  }

  /** With attributes, the text and the tokens parse back to the structure. */
  lemma FullRoundTrip(cfg: Option<Settings>, a: AttributesStructure)
    requires !Dataview(cfg) && a.attributes != []
    requires Valid(a.attributes) && ClassicEntries(a.attributes) && PlainText(a.textWithoutAttributes)
    ensures ParseAttributesSpec(cfg, AttributesToString(cfg, a)) == a
  {
    var text, d := a.textWithoutAttributes, a.attributes;
    var ts := Tokens(cfg, d);
    TokensOfTokens(cfg, d);
    var pre := if text == "" then "" else text + " ";
    var s := AttributesToString(cfg, a);
    var t := pre + Spaces(|d| - 1);
    WrittenText(cfg, a, pre, ts);
    ParsedPieces(cfg, s, pre, ts, d);
    SpacesAfter(pre, |d| - 1);
    PaddedText(text, pre, t);
    ParsedPlain(cfg, s, ts, d, t);
  }

  lemma SpacesAfter(pre: string, n: nat)
    ensures var t := pre + Spaces(n);
      |t| >= |pre| && t[..|pre|] == pre && forall j :: |pre| <= j < |t| ==> t[j] == ' '
  {
  }

  /** The matches of the written text, their pairs, the dictionary they build and the
      text left once they are removed. */
  lemma ParsedPieces(cfg: Option<Settings>, s: string, pre: string, ts: seq<string>, d: Attributes)
    requires !Dataview(cfg) && Valid(d) && ClassicEntries(d) && TokensOf(cfg, ts, d) && d != []
    requires forall j :: 0 <= j < |pre| ==> pre[j] != '@'
    requires s == pre + Join(ts, " ")
    ensures Matches(cfg, s) == ts && Pairs(cfg, ts) == d && AttrsAfter(d) == d
    ensures TextAfter(s, ts, d) == pre + Spaces(|d| - 1)
  {
    MatchesOfText(cfg, s, pre, ts, d);
    PairsBack(cfg, ts, d);
    AttrsAfterDistinct(d);
    TextAfterAll(cfg, s, pre, ts, d);
  }

  /** The text left is the original text and spaces: it has no wikilink and trims back
      to the original text. */
  lemma PaddedText(text: string, pre: string, t: string)
    requires PlainText(text)
    requires pre == if text == "" then "" else text + " "
    requires |t| >= |pre| && t[..|pre|] == pre && forall j :: |pre| <= j < |t| ==> t[j] == ' '
    ensures WikilinkDates(t) == [] && Trim(t) == text
  {
    PaddedPlain(text, pre, t);
    NoWikilinks(t, 0);
    TrimPadded(text, t);
  }

  lemma TokensOfTokens(cfg: Option<Settings>, d: Attributes)
    ensures TokensOf(cfg, Tokens(cfg, d), d)
  {
    forall i | 0 <= i < |d|
      ensures TokenIs(cfg, Tokens(cfg, d), d, i)
    {
    }
  }

  /** With no attribute the text is written alone and parses back unchanged. */
  lemma EmptyRoundTrip(cfg: Option<Settings>, a: AttributesStructure)
    requires !Dataview(cfg) && a.attributes == [] && PlainText(a.textWithoutAttributes)
    ensures ParseAttributesSpec(cfg, AttributesToString(cfg, a)) == a
  {
    var text := a.textWithoutAttributes;
    AttributesToStringBare(cfg, a);
    SkipPlain(cfg, text, 0, |text|);
    assert Pairs(cfg, []) == [];
    NoWikilinks(text, 0);
    TrimFixed(text);
  }

  /** `parseAttributes` once the matches, the pairs and the text left are known, and
      that text has no wikilink. */
  lemma ParsedPlain(cfg: Option<Settings>, s: string, ts: seq<string>, d: Attributes, t: string)
    requires Matches(cfg, s) == ts && Pairs(cfg, ts) == d && AttrsAfter(d) == d
    requires TextAfter(s, ts, d) == t && WikilinkDates(t) == []
    ensures ParseAttributesSpec(cfg, s) == AttributesStructure(Trim(t), d)
  {
  }

  /** What `attributesToString` writes when there is an attribute: the text and a
      space, unless the text is empty, then the tokens joined by spaces. */
  lemma WrittenText(cfg: Option<Settings>, a: AttributesStructure, pre: string, ts: seq<string>)
    requires !Dataview(cfg) && a.attributes != [] && ts == Tokens(cfg, a.attributes)
    requires ClassicEntries(a.attributes) && PlainText(a.textWithoutAttributes)
    requires pre == if a.textWithoutAttributes == "" then "" else a.textWithoutAttributes + " "
    ensures AttributesToString(cfg, a) == pre + Join(ts, " ")
  {
    var text := a.textWithoutAttributes;
    var j := Join(ts, " ");
    AttributesToStringBare(cfg, a);
    JoinTrimmed(cfg, ts, a.attributes);
    if text == "" {
      TrimSpaced(j);
      assert "" + " " + j == " " + j;
    } else {
      var w := text + " " + j;
      assert w[0] == text[0] && w[|w| - 1] == j[|j| - 1];
      TrimFixed(w);
    }
  }

  /** Tokens joined by spaces start with `@` and have no white space at either end. */
  lemma JoinTrimmed(cfg: Option<Settings>, ts: seq<string>, d: Attributes)
    requires !Dataview(cfg) && ClassicEntries(d) && TokensOf(cfg, ts, d) && d != []
    ensures var j := Join(ts, " "); |j| > 0 && j[0] == '@' && Trimmed(j)
  {
    TokenEnds(cfg, ts, d, 0);
    TokenEnds(cfg, ts, d, |ts| - 1);
    forall i | 0 <= i < |ts|
      ensures |ts[i]| > 0
    {
      TokenEnds(cfg, ts, d, i);
    }
    JoinEnds(ts, " ");
  }

  /** A classic token starts with `@` and ends with a word character or `)`. */
  lemma TokenEnds(cfg: Option<Settings>, ts: seq<string>, d: Attributes, i: nat)
    requires !Dataview(cfg) && ClassicEntries(d) && TokensOf(cfg, ts, d) && i < |d|
    ensures |ts[i]| > 1 && ts[i][0] == '@' && !IsWhitespace(ts[i][|ts[i]| - 1])
  {
    var k := d[i].0;
    assert TokenIs(cfg, ts, d, i);
    if d[i].1.Flag? {
      assert ts[i] == "@" + k;
      assert ts[i][|ts[i]| - 1] == k[|k| - 1];
    } else {
      assert ts[i] == "@" + k + "(" + d[i].1.text + ")";
    }
  }

  /** A join of non-empty parts starts like its first part and ends like its last. */
  lemma {:induction false} JoinEnds(ts: seq<string>, sep: string)
    requires |ts| > 0 && forall i :: 0 <= i < |ts| ==> |ts[i]| > 0
    ensures var j := Join(ts, sep);
      |j| > 0 && j[0] == ts[0][0] && j[|j| - 1] == ts[|ts| - 1][|ts[|ts| - 1]| - 1]
    decreases |ts|
  {
    if |ts| > 1 {
      JoinEnds(ts[1..], sep);
      assert Join(ts, sep) == ts[0] + sep + Join(ts[1..], sep);
    }
  }

  /** Positions without `@` are passed over by the global match. */
  lemma {:induction false} SkipPlain(cfg: Option<Settings>, s: string, i: nat, p: nat)
    requires !Dataview(cfg) && i <= p <= |s|
    requires forall j :: i <= j < p ==> s[j] != '@'
    ensures MatchesFrom(cfg, s, i) == MatchesFrom(cfg, s, p)
    decreases p - i
  {
    if i < p {
      SkipPlain(cfg, s, i + 1, p);
    }
  }

  /** The global match over the written text finds exactly the tokens. */
  lemma MatchesOfText(cfg: Option<Settings>, s: string, pre: string, ts: seq<string>, d: Attributes)
    requires !Dataview(cfg) && ClassicEntries(d) && TokensOf(cfg, ts, d) && d != []
    requires forall j :: 0 <= j < |pre| ==> pre[j] != '@'
    requires s == pre + Join(ts, " ")
    ensures Matches(cfg, s) == ts
  {
    SkipPlain(cfg, s, 0, |pre|);
    JoinAt(ts, 0, " ");
    assert ts[0..] == ts;
    assert s[|pre|..] == ts[0] + JoinSuffix(ts, 0, " ");
    MatchesOfJoin(cfg, s, |pre|, ts, d, 0);
  }

  /** From token `i` on, the global match finds the tokens from `i` on. */
  lemma {:induction false} MatchesOfJoin(cfg: Option<Settings>, s: string, p: nat, ts: seq<string>, d: Attributes, i: nat)
    requires !Dataview(cfg) && ClassicEntries(d) && TokensOf(cfg, ts, d) && i < |ts|
    requires p <= |s| && s[p..] == ts[i] + JoinSuffix(ts, i, " ")
    ensures MatchesFrom(cfg, s, p) == ts[i..]
    decreases |ts| - i
  {
    if i == |ts| - 1 {
      MatchesOfLast(cfg, s, p, ts, d, i);
    } else {
      JoinStep(s, p, ts, i);
      MatchesOfJoin(cfg, s, p + |ts[i]| + 1, ts, d, i + 1);
      MatchesHead(cfg, s, p, ts, d, i);
    }
  }

  /** The last token is the last match. */
  lemma MatchesOfLast(cfg: Option<Settings>, s: string, p: nat, ts: seq<string>, d: Attributes, i: nat)
    requires !Dataview(cfg) && ClassicEntries(d) && TokensOf(cfg, ts, d) && i == |ts| - 1
    requires p <= |s| && s[p..] == ts[i] + JoinSuffix(ts, i, " ")
    ensures MatchesFrom(cfg, s, p) == ts[i..]
  {
    var e := p + |ts[i]|;
    JoinLast(s, p, ts, i);
    TokenHitAt(cfg, s, p, ts, d, i);
    MatchesStep(cfg, s, p, e);
    assert MatchesFrom(cfg, s, e) == [];
    assert ts[i..] == [ts[i]];
  }

  /** A token before the last is the next match, and the global match goes on after
      the space that follows it. */
  lemma MatchesHead(cfg: Option<Settings>, s: string, p: nat, ts: seq<string>, d: Attributes, i: nat)
    requires !Dataview(cfg) && ClassicEntries(d) && TokensOf(cfg, ts, d) && i + 1 < |ts|
    requires p + |ts[i]| < |s| && s[p..p + |ts[i]|] == ts[i] && s[p + |ts[i]|] == ' '
    requires MatchesFrom(cfg, s, p + |ts[i]| + 1) == ts[i + 1..]
    ensures MatchesFrom(cfg, s, p) == ts[i..]
  {
    var e := p + |ts[i]|;
    TokenEnds(cfg, ts, d, i);
    TokenHitEnd(cfg, s, p, ts, d, i);
    MatchesCons(cfg, s, p, e, ts[i + 1..]);
    assert ts[i..] == [ts[i]] + ts[i + 1..];
  }

  /** A match at `p` ending at `e` is the next string the global match returns. */
  lemma MatchesStep(cfg: Option<Settings>, s: string, p: nat, e: nat)
    requires p < |s| && HitAt(cfg, s, p).Some? && HitAt(cfg, s, p).value.end == e
    ensures MatchesFrom(cfg, s, p) == [s[p..e]] + MatchesFrom(cfg, s, e)
  {
  }

  /** A match at `p` ending at a space is followed by what the global match finds
      after the space. */
  lemma MatchesCons(cfg: Option<Settings>, s: string, p: nat, e: nat, rest: seq<string>)
    requires !Dataview(cfg) && p < e < |s| && s[e] == ' '
    requires HitAt(cfg, s, p).Some? && HitAt(cfg, s, p).value.end == e
    requires MatchesFrom(cfg, s, e + 1) == rest
    ensures MatchesFrom(cfg, s, p) == [s[p..e]] + rest
  {
    SkipPlain(cfg, s, e, e + 1);
    assert MatchesFrom(cfg, s, e) == rest;
    MatchesStep(cfg, s, p, e);
  }

  /** The last token runs to the end of the text. */
  lemma JoinLast(s: string, p: nat, ts: seq<string>, i: nat)
    requires i == |ts| - 1 && p <= |s| && s[p..] == ts[i] + JoinSuffix(ts, i, " ")
    ensures p + |ts[i]| == |s| && s[p..p + |ts[i]|] == ts[i]
  {
  }

  /** A token before the last is followed by a space and the next token. */
  lemma JoinStep(s: string, p: nat, ts: seq<string>, i: nat)
    requires i + 1 < |ts| && p <= |s| && s[p..] == ts[i] + JoinSuffix(ts, i, " ")
    ensures var e := p + |ts[i]|;
      && e < |s| && s[p..e] == ts[i] && s[e] == ' '
      && s[e + 1..] == ts[i + 1] + JoinSuffix(ts, i + 1, " ")
  {
    var e := p + |ts[i]|;
    JoinAt(ts, i + 1, " ");
    var rest := ts[i + 1] + JoinSuffix(ts, i + 1, " ");
    assert s[p..] == ts[i] + " " + rest;
    assert s[p..][..|ts[i]|] == ts[i];
    assert s[p..][|ts[i]| + 1..] == rest;
  }

  /** `Join` from part `i` on is that part and what follows it. */
  lemma JoinAt(ts: seq<string>, i: nat, sep: string)
    requires i < |ts|
    ensures Join(ts[i..], sep) == ts[i] + JoinSuffix(ts, i, sep)
  {
    if i < |ts| - 1 {
      assert ts[i..][1..] == ts[i + 1..];
    }
  }

  /** A token followed by a space or the end is one match that ends with the token. */
  lemma TokenHitEnd(cfg: Option<Settings>, s: string, p: nat, ts: seq<string>, d: Attributes, i: nat)
    requires !Dataview(cfg) && ClassicEntries(d) && TokensOf(cfg, ts, d) && i < |d|
    requires p + |ts[i]| <= |s| && s[p..p + |ts[i]|] == ts[i]
    requires p + |ts[i]| == |s| || s[p + |ts[i]|] == ' '
    ensures HitAt(cfg, s, p).Some? && HitAt(cfg, s, p).value.end == p + |ts[i]|
  {
    TokenHitAt(cfg, s, p, ts, d, i);
  }

  /** A token followed by a space or the end is one match, with the key and value it
      was written from. */
  lemma TokenHitAt(cfg: Option<Settings>, s: string, p: nat, ts: seq<string>, d: Attributes, i: nat)
    requires !Dataview(cfg) && ClassicEntries(d) && TokensOf(cfg, ts, d) && i < |d|
    requires p + |ts[i]| <= |s| && s[p..p + |ts[i]|] == ts[i]
    requires p + |ts[i]| == |s| || s[p + |ts[i]|] == ' '
    ensures HitAt(cfg, s, p) == Some(Hit(p + |ts[i]|, d[i].0, if d[i].1.Str? then Some(d[i].1.text) else None))
  {
    var k := d[i].0;
    assert TokenIs(cfg, ts, d, i);
    if d[i].1.Str? {
      ValueTokenHit(s, p, ts[i], k, d[i].1.text);
    } else {
      FlagTokenHit(s, p, ts[i], k);
    }
  }

  lemma FlagTokenHit(s: string, p: nat, t: string, k: string)
    requires ClassicKey(k) && t == "@" + k
    requires p + |t| <= |s| && s[p..p + |t|] == t && (p + |t| == |s| || s[p + |t|] == ' ')
    ensures ClassicAt(s, p) == Some(Hit(p + |t|, k, None))
  {
    var j := p + 1 + |k|;
    assert t[1..|t|] == k;
    SliceOfSlice(s, p, p + |t|, 1, |t|);
    assert s[p + 1..j] == k;
    KeyCharsAt(s, p + 1, k);
    assert s[p] == t[0];
    WordRunAtIs(s, p + 1, |k|);
  }

  lemma ValueTokenHit(s: string, p: nat, t: string, k: string, x: string)
    requires ClassicKey(k) && ClassicValue(Str(x)) && t == "@" + k + "(" + x + ")"
    requires p + |t| <= |s| && s[p..p + |t|] == t
    ensures ClassicAt(s, p) == Some(Hit(p + |t|, k, Some(x)))
  {
    ValueLaidOut(s, p, t, k, x);
    ValueAtParts(s, p, k, x);
  }

  /** `@key(value)` copied at `p` puts each piece at its place in the text. */
  lemma ValueLaidOut(s: string, p: nat, t: string, k: string, x: string)
    requires t == "@" + k + "(" + x + ")"
    requires p + |t| <= |s| && s[p..p + |t|] == t
    ensures |t| == |k| + |x| + 3
    ensures var j := p + 1 + |k|;
      && j + 1 + |x| < |s| && s[p] == '@' && s[p + 1..j] == k && s[j] == '('
      && s[j + 1..j + 1 + |x|] == x && s[j + 1 + |x|] == ')'
  {
    var j := 1 + |k|;
    ValueLayout(t, k, x);
    SliceOfSlice(s, p, p + |t|, 1, j);
    SliceOfSlice(s, p, p + |t|, j + 1, j + 1 + |x|);
    assert s[p] == t[0] && s[p + j] == t[j] && s[p + |t| - 1] == t[|t| - 1];
  }

  /** Where the pieces of `@key(value)` sit. */
  lemma ValueLayout(t: string, k: string, x: string)
    requires t == "@" + k + "(" + x + ")"
    ensures var j := 1 + |k|;
      && |t| == |k| + |x| + 3 && t[0] == '@' && t[1..j] == k && t[j] == '('
      && t[j + 1..j + 1 + |x|] == x && t[|t| - 1] == ')'
  {
  }

  /** `@key(value)` laid out at `p` is one match with that key and value. */
  lemma ValueAtParts(s: string, p: nat, k: string, x: string)
    requires ClassicKey(k) && ClassicValue(Str(x))
    requires var j := p + 1 + |k|;
      && j + 1 + |x| < |s| && s[p] == '@' && s[p + 1..j] == k && s[j] == '('
      && s[j + 1..j + 1 + |x|] == x && s[j + 1 + |x|] == ')'
    ensures ClassicAt(s, p) == Some(Hit(p + |k| + |x| + 3, k, Some(x)))
  {
    var j := p + 1 + |k|;
    KeyCharsAt(s, p + 1, k);
    ValueCharsAt(s, j + 1, x);
    WordRunAtIs(s, p + 1, |k|);
    RunAtIs(s, j + 1, {')'}, |x|);
  }

  /** A key copied at `a` is a run of word characters. */
  lemma KeyCharsAt(s: string, a: nat, k: string)
    requires ClassicKey(k) && a + |k| <= |s| && s[a..a + |k|] == k
    ensures forall q :: a <= q < a + |k| ==> IsWordChar(s[q])
  {
    forall q | a <= q < a + |k|
      ensures IsWordChar(s[q])
    {
      assert s[q] == s[a..a + |k|][q - a];
    }
  }

  /** A value copied at `a` has no `)`. */
  lemma ValueCharsAt(s: string, a: nat, x: string)
    requires ClassicValue(Str(x)) && a + |x| <= |s| && s[a..a + |x|] == x
    ensures forall q :: a <= q < a + |x| ==> s[q] != ')'
  {
    forall q | a <= q < a + |x|
      ensures s[q] != ')'
    {
      assert s[q] == s[a..a + |x|][q - a];
    }
  }

  /** Each token reads back to its entry, so the pairs are the dictionary itself. */
  lemma PairsBack(cfg: Option<Settings>, ts: seq<string>, d: Attributes)
    requires !Dataview(cfg) && ClassicEntries(d) && TokensOf(cfg, ts, d)
    ensures Pairs(cfg, ts) == d
  {
    var ps := Pairs(cfg, ts);
    forall i | 0 <= i < |d|
      ensures ps[i] == d[i]
    {
      assert TokenIs(cfg, ts, d, i);
      ClassicRoundTrip(cfg, d[i].0, d[i].1);
    }
  }

  /** Assigning distinct non-empty keys in order rebuilds the dictionary. */
  lemma {:induction false} AttrsAfterDistinct(d: Attributes)
    requires Valid(d) && ClassicEntries(d)
    ensures AttrsAfter(d) == d
    decreases |d|
  {
    if d != [] {
      var init := d[..|d| - 1];
      AttrsAfterDistinct(init);
      var kv := d[|d| - 1];
      assert kv.0 != "";
      FindNone(init, kv.0);
      assert Find(init, kv.0).None?;
      assert init + [kv] == d;
    }
  }

  /** The text before token `i` is removed: the prefix, a space per removed token,
      then the tokens from `i` on. */
  function Before(pre: string, ts: seq<string>, i: nat): string
    requires i < |ts|
  {
    pre + Spaces(i) + ts[i] + JoinSuffix(ts, i, " ")
  }

  /** Removing the first `i` tokens, in order, leaves `Before(pre, ts, i)`. */
  lemma {:induction false} TextAfterPrefix(cfg: Option<Settings>, s: string, pre: string, ts: seq<string>, d: Attributes, i: nat)
    requires !Dataview(cfg) && ClassicEntries(d) && TokensOf(cfg, ts, d)
    requires forall j :: 0 <= j < |pre| ==> pre[j] != '@'
    requires s == pre + Join(ts, " ")
    requires i < |d|
    ensures TextAfter(s, ts[..i], d[..i]) == Before(pre, ts, i)
    decreases i
  {
    if i == 0 {
      BeforeFirst(pre, ts);
      assert ts[..0] == [] && d[..0] == [];
    } else {
      TextAfterPrefix(cfg, s, pre, ts, d, i - 1);
      TextAfterStep(s, ts, d, i - 1);
      RemoveStep(cfg, pre, ts, d, i - 1);
      BeforeNext(pre, ts, i - 1);
    }
  }

  /** Removing all the tokens leaves the prefix and one space between each pair of
      tokens. */
  lemma TextAfterAll(cfg: Option<Settings>, s: string, pre: string, ts: seq<string>, d: Attributes)
    requires !Dataview(cfg) && ClassicEntries(d) && TokensOf(cfg, ts, d) && d != []
    requires forall j :: 0 <= j < |pre| ==> pre[j] != '@'
    requires s == pre + Join(ts, " ")
    ensures TextAfter(s, ts, d) == pre + Spaces(|d| - 1)
  {
    var n := |d|;
    TextAfterPrefix(cfg, s, pre, ts, d, n - 1);
    TextAfterStep(s, ts, d, n - 1);
    RemoveStep(cfg, pre, ts, d, n - 1);
    assert ts[..n] == ts && d[..n] == d;
    assert pre + Spaces(n - 1) + "" == pre + Spaces(n - 1);
  }

  lemma BeforeFirst(pre: string, ts: seq<string>)
    requires |ts| > 0
    ensures Before(pre, ts, 0) == pre + Join(ts, " ")
  {
    var j := JoinSuffix(ts, 0, " ");
    var x := ts[0];
    calc {
      Before(pre, ts, 0);
      pre + Spaces(0) + x + j;
      { assert Spaces(0) == ""; assert pre + Spaces(0) == pre; }
      pre + x + j;
      { assert (pre + x) + j == pre + (x + j); }
      pre + (x + j);
      { JoinAt(ts, 0, " "); assert ts[0..] == ts; }
      pre + Join(ts, " ");
    }
  }

  /** `TextAfter` over one more token replaces that token's first occurrence. */
  lemma TextAfterStep(s: string, ts: seq<string>, d: Attributes, i: nat)
    requires |ts| == |d| && i < |d| && d[i].0 != ""
    ensures TextAfter(s, ts[..i + 1], d[..i + 1]) == ReplaceFirst(TextAfter(s, ts[..i], d[..i]), ts[i], "")
  {
    assert ts[..i + 1][..i] == ts[..i] && d[..i + 1][..i] == d[..i];
    assert d[..i + 1][i] == d[i] && ts[..i + 1][i] == ts[i];
  }

  /** After removing token `i` the text is `Before` the next token. */
  lemma BeforeNext(pre: string, ts: seq<string>, i: nat)
    requires i + 1 < |ts|
    ensures pre + Spaces(i) + JoinSuffix(ts, i, " ") == Before(pre, ts, i + 1)
  {
    JoinAt(ts, i + 1, " ");
    assert Spaces(i) + " " == Spaces(i + 1);
  }

  /** The first occurrence of token `i` is its own place: everything before it is free
      of `@`, which every token starts with. */
  lemma RemoveStep(cfg: Option<Settings>, pre: string, ts: seq<string>, d: Attributes, i: nat)
    requires !Dataview(cfg) && ClassicEntries(d) && TokensOf(cfg, ts, d)
    requires forall j :: 0 <= j < |pre| ==> pre[j] != '@'
    requires i < |d|
    ensures ReplaceFirst(Before(pre, ts, i), ts[i], "") == pre + Spaces(i) + JoinSuffix(ts, i, " ")
  {
    TokenEnds(cfg, ts, d, i);
    RemoveAt(pre + Spaces(i), ts[i], JoinSuffix(ts, i, " "));
  }

  /** Removing the first occurrence of a pattern that starts with `@`, from a text
      whose part before it has no `@`. */
  lemma RemoveAt(x: string, t: string, y: string)
    requires |t| > 0 && t[0] == '@' && forall q :: 0 <= q < |x| ==> x[q] != '@'
    ensures ReplaceFirst(x + t + y, t, "") == x + y
  {
    var b := x + t + y;
    assert b[|x|..|x| + |t|] == t;
    forall q | 0 <= q < |x|
      ensures b[q] != '@'
    {
      assert b[q] == x[q];
    }
    FirstOccurrence(b, t, |x|);
    assert b[..|x|] == x && b[|x| + |t|..] == y;
    assert ReplaceFirst(b, t, "") == x + "" + y;
    assert x + "" + y == x + y;
  }

  /** An occurrence with no `@` before it, of a pattern that starts with `@`, is the one
      `indexOf` finds. */
  lemma FirstOccurrence(s: string, pat: string, p: nat)
    requires p + |pat| <= |s| && s[p..p + |pat|] == pat && |pat| > 0 && pat[0] == '@'
    requires forall q :: 0 <= q < p ==> s[q] != '@'
    ensures IndexOf(s, pat) == Some(p)
  {
    assert OccursAt(s, pat, p);
    forall q: nat | q < p
      ensures !OccursAt(s, pat, q)
    {
      if q + |pat| <= |s| {
        assert s[q..q + |pat|][0] == s[q];
      }
    }
  }

  /** The text left after the removal has no `[[`. */
  lemma PaddedPlain(text: string, pre: string, t: string)
    requires PlainText(text)
    requires pre == if text == "" then "" else text + " "
    requires |t| >= |pre| && t[..|pre|] == pre && forall j :: |pre| <= j < |t| ==> t[j] == ' '
    ensures NoDoubleBracket(t, 0)
    ensures |t| >= |text| && t[..|text|] == text && forall j :: |text| <= j < |t| ==> t[j] == ' '
  {
    assert t[..|text|] == pre[..|text|] == text;
    forall j | 0 <= j && j + 1 < |t|
      ensures t[j] != '[' || t[j + 1] != '['
    {
      if j + 1 < |text| {
        assert t[j] == text[j] && t[j + 1] == text[j + 1];
      } else if j < |text| {
        assert t[j + 1] == pre[j + 1] == ' ';
      } else if j < |pre| {
        assert t[j] == pre[j] == ' ';
      }
    }
  }

  /** Text without `[[` has no wikilink date. */
  lemma {:induction false} NoWikilinks(s: string, i: nat)
    requires i <= |s| && NoDoubleBracket(s, i)
    ensures WikilinkDatesFrom(s, i) == []
    decreases |s| - i
  {
    if i < |s| {
      assert !WikilinkAt(s, i);
      NoWikilinks(s, i + 1);
    }
  }

  /** A trimmed text followed by spaces trims back to the text. */
  lemma TrimPadded(text: string, t: string)
    requires Trimmed(text)
    requires |t| >= |text| && t[..|text|] == text && forall j :: |text| <= j < |t| ==> t[j] == ' '
    ensures Trim(t) == text
  {
    TrimSpec(t);
    var a, b :| 0 <= a <= b <= |t| && Trim(t) == t[a..b] && AllWhitespace(t[..a]) && AllWhitespace(t[b..]);
    if text != "" {
      assert t[..|text|] == text;
    }
  }
}
