/**
 * The inline attributes of `LineOperations.ts`: the two token syntaxes
 * `@key` / `@key(value)` and `[key:: value]`, the global scan that finds them,
 * `parseSingleAttribute`, `attributeToString` and the wikilink dates `[[YYYY-MM-DD]]`.
 * Each regular expression is written out as a scanner with the semantics of its
 * backtracking match.
 */
module AttributeTokens {
  import opened Wrappers
  import opened Strings
  import opened TodoItems
  import LineGrammar

  /** The settings `LineOperations` reads; the whole object may be absent. */
  datatype Settings = Settings(useDataviewSyntax: bool, dueDateAttribute: string)

  predicate Dataview(cfg: Option<Settings>) {
    cfg.Some? && cfg.value.useDataviewSyntax
  }

  /** `settings?.dueDateAttribute || "due"`: an empty name falls back to `due` too. */
  function DueKey(cfg: Option<Settings>): (k: string)
    ensures k != ""
    ensures cfg.Some? && cfg.value.dueDateAttribute != "" ==> k == cfg.value.dueDateAttribute
    ensures cfg.None? || cfg.value.dueDateAttribute == "" ==> k == "due"
  {
    if cfg.Some? && cfg.value.dueDateAttribute != "" then cfg.value.dueDateAttribute else "due"
  }

  /** Length of the longest run of characters outside `stop` starting at `i`: what a
      greedy `[^...]*` takes. */
  function RunAt(s: string, i: nat, stop: set<char>): (n: nat)
    requires i <= |s|
    ensures i + n <= |s|
    decreases |s| - i
  {
    if i < |s| && s[i] !in stop then 1 + RunAt(s, i + 1, stop) else 0
  }

  /** Length of the longest run of `\w` characters starting at `i`. */
  function WordRunAt(s: string, i: nat): (n: nat)
    requires i <= |s|
    ensures i + n <= |s|
    decreases |s| - i
  {
    if i < |s| && IsWordChar(s[i]) then 1 + WordRunAt(s, i + 1) else 0
  }

  /** The run holds no stop character and ends at one or at the end. */
  lemma {:induction false} RunAtSpec(s: string, i: nat, stop: set<char>)
    requires i <= |s|
    ensures forall j :: i <= j < i + RunAt(s, i, stop) ==> s[j] !in stop
    ensures i + RunAt(s, i, stop) < |s| ==> s[i + RunAt(s, i, stop)] in stop
    decreases |s| - i
  {
    if i < |s| && s[i] !in stop {
      RunAtSpec(s, i + 1, stop);
    }
  }

  /** The run is made of word characters and ends at a non-word one or at the end. */
  lemma {:induction false} WordRunAtSpec(s: string, i: nat)
    requires i <= |s|
    ensures forall j :: i <= j < i + WordRunAt(s, i) ==> IsWordChar(s[j])
    ensures i + WordRunAt(s, i) < |s| ==> !IsWordChar(s[i + WordRunAt(s, i)])
    decreases |s| - i
  {
    if i < |s| && IsWordChar(s[i]) {
      WordRunAtSpec(s, i + 1);
    }
  }

  /** A run is fixed by its characters and the one that stops it. */
  lemma {:induction false} RunAtIs(s: string, i: nat, stop: set<char>, n: nat)
    requires i + n <= |s|
    requires forall j :: i <= j < i + n ==> s[j] !in stop
    requires i + n < |s| ==> s[i + n] in stop
    ensures RunAt(s, i, stop) == n
    decreases n
  {
    if n > 0 {
      RunAtIs(s, i + 1, stop, n - 1);
    }
  }

  lemma {:induction false} WordRunAtIs(s: string, i: nat, n: nat)
    requires i + n <= |s|
    requires forall j :: i <= j < i + n ==> IsWordChar(s[j])
    requires i + n < |s| ==> !IsWordChar(s[i + n])
    ensures WordRunAt(s, i) == n
    decreases n
  {
    if n > 0 {
      WordRunAtIs(s, i + 1, n - 1);
    }
  }

  /** One match of the attribute pattern starting exactly at a position: where it ends,
      the key group and the value group (`undefined` is `None`). */
  datatype Hit = Hit(end: nat, key: string, value: Option<string>)

  /** `@(\w+)(?:\(([^)]+)\))?` at `i`. `\w+` can only end where the word ends: giving
      back characters leaves a word character where `(` or the end is needed, and the
      optional group may always be skipped. `[^)]+` takes everything up to the first
      `)`, which must exist and leave at least one character. */
  function ClassicAt(s: string, i: nat): (r: Option<Hit>)
    requires i <= |s|
    ensures r.Some? ==> i < r.value.end <= |s|
  {
    if i < |s| && s[i] == '@' && WordRunAt(s, i + 1) > 0 then
      var j := i + 1 + WordRunAt(s, i + 1);
      if j < |s| && s[j] == '(' && RunAt(s, j + 1, {')'}) > 0 && j + 1 + RunAt(s, j + 1, {')'}) < |s| then
        var p := j + 1 + RunAt(s, j + 1, {')'});
        Some(Hit(p + 1, s[i + 1..j], Some(s[j + 1..p])))
      else
        Some(Hit(j, s[i + 1..j], None))
    else None
  }

  /** `\[([^:\]]+)::([^\]]+)\]` at `i`. Neither class can give back characters usefully:
      a shorter key is followed by a character that is neither `:` nor `]`, a shorter
      value by one that is not `]`. */
  function DataviewAt(s: string, i: nat): (r: Option<Hit>)
    requires i <= |s|
    ensures r.Some? ==> i < r.value.end <= |s| && r.value.value.Some?
  {
    if i < |s| && s[i] == '[' then
      var k := RunAt(s, i + 1, {':', ']'});
      var b := i + 1 + k + 2;
      if k > 0 && b <= |s| && s[i + 1 + k] == ':' && s[i + 2 + k] == ':' then
        var m := RunAt(s, b, {']'});
        if m > 0 && b + m < |s| then Some(Hit(b + m + 1, s[i + 1..i + 1 + k], Some(s[b..b + m])))
        else None
      else None
    else None
  }

  function HitAt(cfg: Option<Settings>, s: string, i: nat): (r: Option<Hit>)
    requires i <= |s|
    ensures r.Some? ==> i < r.value.end <= |s|
  {
    if Dataview(cfg) then DataviewAt(s, i) else ClassicAt(s, i)
  }

  /** `@key` or `@key(value)` at `i`, as `h` records it: the key is the whole run of
      word characters after `@`; a value is a non-empty run without `)` between `(`
      and `)`; and a match without a value is not followed by such a group. */
  predicate ClassicMatch(s: string, i: nat, h: Hit) {
    var j := i + 1 + |h.key|;
    && j <= |s| && s[i] == '@' && ClassicKey(h.key) && s[i + 1..j] == h.key
    && (j < |s| ==> !IsWordChar(s[j]))
    && match h.value
      case None => h.end == j && !ValueGroupAt(s, j)
      case Some(v) =>
        && |v| > 0 && (forall q :: 0 <= q < |v| ==> v[q] != ')')
        && h.end == j + |v| + 2 <= |s| && s[j] == '(' && s[j + 1..h.end - 1] == v && s[h.end - 1] == ')'
  }

  /** A `(value)` group can start at `j`: `(`, a character other than `)`, and a `)`
      further on. */
  predicate ValueGroupAt(s: string, j: nat) {
    j + 1 < |s| && s[j] == '(' && s[j + 1] != ')' && exists q :: j + 1 < q < |s| && s[q] == ')'
  }

  /** `[key:: value]` at `i`, as `h` records it: a non-empty key without `:` or `]`,
      `::`, a non-empty value without `]`, and `]`. */
  predicate DataviewMatch(s: string, i: nat, h: Hit) {
    var b := i + 3 + |h.key|;
    && h.value.Some? && b <= |s| && s[i] == '[' && |h.key| > 0
    && (forall q :: 0 <= q < |h.key| ==> h.key[q] != ':' && h.key[q] != ']')
    && s[i + 1..i + 1 + |h.key|] == h.key && s[i + 1 + |h.key|] == ':' && s[i + 2 + |h.key|] == ':'
    && var v := h.value.value;
    && |v| > 0 && (forall q :: 0 <= q < |v| ==> v[q] != ']')
    && h.end == b + |v| + 1 <= |s| && s[b..h.end - 1] == v && s[h.end - 1] == ']'
  }

  /** What a match of the active pattern at `i` consists of. */
  lemma HitShape(cfg: Option<Settings>, s: string, i: nat)
    requires i <= |s| && HitAt(cfg, s, i).Some?
    ensures Dataview(cfg) ==> DataviewMatch(s, i, HitAt(cfg, s, i).value)
    ensures !Dataview(cfg) ==> ClassicMatch(s, i, HitAt(cfg, s, i).value)
  {
    if Dataview(cfg) {
      DataviewMatchAt(s, i);
    } else {
      ClassicMatchAt(s, i);
    }
  }

  lemma DataviewMatchAt(s: string, i: nat)
    requires i <= |s| && DataviewAt(s, i).Some?
    ensures DataviewMatch(s, i, DataviewAt(s, i).value)
  {
    var k := RunAt(s, i + 1, {':', ']'});
    RunAtSpec(s, i + 1, {':', ']'});
    RunAtSpec(s, i + k + 3, {']'});
    DataviewPieces(s, i, k, RunAt(s, i + k + 3, {']'}), DataviewAt(s, i).value);
  }

  lemma ClassicMatchAt(s: string, i: nat)
    requires i <= |s| && ClassicAt(s, i).Some?
    ensures ClassicMatch(s, i, ClassicAt(s, i).value)
  {
    var h := ClassicAt(s, i).value;
    var w := WordRunAt(s, i + 1);
    var j := i + 1 + w;
    WordRunAtSpec(s, i + 1);
    ClassicKeyOf(s, i, w, h);
    if j < |s| {
      RunAtSpec(s, j + 1, {')'});
      if h.value.Some? {
        ClassicValuePieces(s, i, j, RunAt(s, j + 1, {')'}), h);
      }
    }
  }

  lemma ClassicKeyOf(s: string, i: nat, w: nat, h: Hit)
    requires i <= |s| && ClassicAt(s, i) == Some(h) && w == WordRunAt(s, i + 1)
    requires forall q :: i + 1 <= q < i + 1 + w ==> IsWordChar(s[q])
    ensures h.key == s[i + 1..i + 1 + w] && ClassicKey(h.key)
  {
    forall q | 0 <= q < |h.key|
      ensures IsWordChar(h.key[q])
    {
      assert h.key[q] == s[i + 1 + q];
    }
  }

  lemma ClassicValuePieces(s: string, i: nat, j: nat, n: nat, h: Hit)
    requires i <= |s| && ClassicAt(s, i) == Some(h) && h.value.Some?
    requires j == i + 1 + WordRunAt(s, i + 1) && j < |s| && n == RunAt(s, j + 1, {')'})
    requires forall q :: j + 1 <= q < j + 1 + n ==> s[q] != ')'
    requires j + 1 + n < |s| ==> s[j + 1 + n] == ')'
    ensures var v := h.value.value;
      && |v| > 0 && (forall q :: 0 <= q < |v| ==> v[q] != ')')
      && h.end == j + |v| + 2 <= |s| && s[j] == '(' && s[j + 1..h.end - 1] == v && s[h.end - 1] == ')'
  {
    var v := h.value.value;
    assert v == s[j + 1..j + 1 + n];
    forall q | 0 <= q < |v|
      ensures v[q] != ')'
    {
      assert v[q] == s[j + 1 + q];
    }
  }

  lemma DataviewPieces(s: string, i: nat, k: nat, m: nat, h: Hit)
    requires i <= |s| && DataviewAt(s, i) == Some(h)
    requires k == RunAt(s, i + 1, {':', ']'}) && m == RunAt(s, i + k + 3, {']'})
    requires forall q :: i + 1 <= q < i + 1 + k ==> s[q] !in {':', ']'}
    requires forall q :: i + k + 3 <= q < i + k + 3 + m ==> s[q] !in {']'}
    requires i + k + 3 + m < |s| ==> s[i + k + 3 + m] == ']'
    ensures DataviewMatch(s, i, h)
  {
    var v := h.value.value;
    assert h.key == s[i + 1..i + 1 + k] && v == s[i + k + 3..i + k + 3 + m];
    forall q | 0 <= q < |h.key|
      ensures h.key[q] != ':' && h.key[q] != ']'
    {
      assert h.key[q] == s[i + 1 + q];
    }
    forall q | 0 <= q < |v|
      ensures v[q] != ']'
    {
      assert v[q] == s[i + k + 3 + q];
    }
  }

  /** `text.match(regexp)` with the `g` flag, from position `i` on: the leftmost match,
      then the matches after its end. Every match is non-empty, so no empty-match step
      is needed; `null` for no match is the empty sequence. */
  function MatchesFrom(cfg: Option<Settings>, s: string, i: nat): (ms: seq<string>)
    requires i <= |s|
    decreases |s| - i
  {
    if i == |s| then []
    else match HitAt(cfg, s, i)
      case Some(h) => [s[i..h.end]] + MatchesFrom(cfg, s, h.end)
      case None => MatchesFrom(cfg, s, i + 1)
  }

  function Matches(cfg: Option<Settings>, s: string): seq<string> {
    MatchesFrom(cfg, s, 0)
  }

  /** `regex.exec(s)` without the `g` flag: the leftmost match at or after `i`. */
  function FirstHit(cfg: Option<Settings>, s: string, i: nat): (r: Option<Hit>)
    requires i <= |s|
    decreases |s| - i
  {
    match HitAt(cfg, s, i)
    case Some(h) => Some(h)
    case None => if i == |s| then None else FirstHit(cfg, s, i + 1)
  }

  /** The key and value `parseSingleAttribute` takes from a match: both groups trimmed;
      a classic token without a value is the flag `true`. */
  function Groups(h: Hit): (string, AttrValue) {
    (Trim(h.key), if h.value.Some? then Str(Trim(h.value.value)) else Flag(true))
  }

  /** `parseSingleAttribute`: the groups of the first match in `m`; no match gives
      `["", false]`. */
  function ParseSingle(cfg: Option<Settings>, m: string): (string, AttrValue) {
    match FirstHit(cfg, m, 0)
    case None => ("", Flag(false))
    case Some(h) => Groups(h)
  }

  /** `attributeToString` */
  function AttributeToString(cfg: Option<Settings>, key: string, value: AttrValue): string {
    if Dataview(cfg) then
      match value
      case Flag(_) => "[" + key + ":: true]"
      case Str(v) => "[" + key + ":: " + v + "]"
    else
      match value
      case Flag(_) => "@" + key
      case Str(v) => "@" + key + "(" + v + ")"
  }

  /** Keys `attributeToString` writes so that the classic pattern reads them back. */
  predicate ClassicKey(k: string) {
    |k| > 0 && forall j :: 0 <= j < |k| ==> IsWordChar(k[j])
  }

  /** Values the classic pattern reads back: the flag `true`, or a non-empty trimmed
      string without `)`. */
  predicate ClassicValue(v: AttrValue) {
    match v
    case Flag(b) => b
    case Str(x) => |x| > 0 && Trimmed(x) && forall j :: 0 <= j < |x| ==> x[j] != ')'
  }

  /** Keys the dataview pattern reads back: non-empty, trimmed, without `:` or `]`. */
  predicate DataviewKey(k: string) {
    |k| > 0 && Trimmed(k) && forall j :: 0 <= j < |k| ==> k[j] != ':' && k[j] != ']'
  }

  /** Values the dataview pattern reads back: trimmed strings without `]`. */
  predicate DataviewValue(v: AttrValue) {
    v.Str? && Trimmed(v.text) && forall j :: 0 <= j < |v.text| ==> v.text[j] != ']'
  }

  lemma WordsTrimmed(k: string)
    requires ClassicKey(k)
    ensures Trim(k) == k
  {
    assert IsWordChar(k[0]) && IsWordChar(k[|k| - 1]);
    TrimFixed(k);
  }

  /** A match at the start decides `exec`. */
  lemma ParseAtStart(cfg: Option<Settings>, m: string, h: Hit)
    requires HitAt(cfg, m, 0) == Some(h)
    ensures ParseSingle(cfg, m) == Groups(h)
  {
  }

  lemma ClassicFlagHit(t: string, k: string)
    requires ClassicKey(k) && t == "@" + k
    ensures ClassicAt(t, 0) == Some(Hit(|t|, k, None))
  {
    WordRunAtIs(t, 1, |k|);
    assert t[1..|t|] == k;
  }

  lemma ClassicValueHit(t: string, k: string, x: string)
    requires ClassicKey(k) && |x| > 0 && t == "@" + k + "(" + x + ")"
    requires forall j :: 0 <= j < |x| ==> x[j] != ')'
    ensures ClassicAt(t, 0) == Some(Hit(|t|, k, Some(x)))
  {
    var j := 1 + |k|;
    var p := j + 1 + |x|;
    assert t[1..j] == k && t[j] == '(';
    assert t[j + 1..p] == x && t[p] == ')';
    ClassicValueParts(t, k, x);
  }

  lemma ClassicValueParts(t: string, k: string, x: string)
    requires ClassicKey(k) && |x| > 0 && |t| == |k| + |x| + 3
    requires forall j :: 0 <= j < |x| ==> x[j] != ')'
    requires t[0] == '@' && t[1..1 + |k|] == k && t[1 + |k|] == '('
    requires t[2 + |k|..2 + |k| + |x|] == x && t[2 + |k| + |x|] == ')'
    ensures ClassicAt(t, 0) == Some(Hit(|t|, k, Some(x)))
  {
    var j := 1 + |k|;
    var p := j + 1 + |x|;
    forall q | 1 <= q < j
      ensures IsWordChar(t[q])
    {
      assert t[q] == k[q - 1];
    }
    forall q | j + 1 <= q < p
      ensures t[q] != ')'
    {
      assert t[q] == x[q - j - 1];
    }
    WordRunAtIs(t, 1, |k|);
    RunAtIs(t, j + 1, {')'}, |x|);
    ClassicGroupHit(t, |k|, |x|);
  }

  lemma ClassicGroupHit(t: string, w: nat, n: nat)
    requires 1 + w + 1 + n < |t| && t[0] == '@' && t[1 + w] == '('
    requires w > 0 && WordRunAt(t, 1) == w
    requires n > 0 && RunAt(t, 1 + w + 1, {')'}) == n
    ensures ClassicAt(t, 0) == Some(Hit(1 + w + 1 + n + 1, t[1..1 + w], Some(t[1 + w + 1..1 + w + 1 + n])))
  {
  }

  /** A classic token parses back to the key and value it was written from. */
  lemma ClassicRoundTrip(cfg: Option<Settings>, k: string, v: AttrValue)
    requires !Dataview(cfg) && ClassicKey(k) && ClassicValue(v)
    ensures ParseSingle(cfg, AttributeToString(cfg, k, v)) == (k, v)
  {
    var t := AttributeToString(cfg, k, v);
    WordsTrimmed(k);
    match v
    case Flag(_) =>
      ClassicFlagHit(t, k);
      ParseAtStart(cfg, t, Hit(|t|, k, None));
    case Str(x) =>
      ClassicValueHit(t, k, x);
      ParseAtStart(cfg, t, Hit(|t|, k, Some(x)));
      TrimFixed(x);
  }

  lemma DataviewHit(t: string, k: string, x: string)
    requires DataviewKey(k) && t == "[" + k + ":: " + x + "]"
    requires forall j :: 0 <= j < |x| ==> x[j] != ']'
    ensures DataviewAt(t, 0) == Some(Hit(|t|, k, Some(" " + x)))
  {
    var b := |k| + 3;
    assert t[1..1 + |k|] == k && t[1 + |k|] == ':' && t[2 + |k|] == ':';
    assert t[b..b + |x| + 1] == " " + x && t[b + |x| + 1] == ']';
    RunAtIs(t, 1, {':', ']'}, |k|);
    RunAtIs(t, b, {']'}, |x| + 1);
  }

  /** A dataview token parses back to the key and value it was written from. */
  lemma DataviewRoundTrip(cfg: Option<Settings>, k: string, v: AttrValue)
    requires Dataview(cfg) && DataviewKey(k) && DataviewValue(v)
    ensures ParseSingle(cfg, AttributeToString(cfg, k, v)) == (k, v)
  {
    var t := AttributeToString(cfg, k, v);
    var x := v.text;
    DataviewHit(t, k, x);
    ParseAtStart(cfg, t, Hit(|t|, k, Some(" " + x)));
    TrimFixed(k);
    TrimSpaced(x);
  }

  /** Flags do not survive the trip: a classic `false` comes back `true`, and a dataview
      flag comes back as the string `true`. */
  lemma FlagRoundTrip(cfg: Option<Settings>, k: string, b: bool)
    requires if Dataview(cfg) then DataviewKey(k) else ClassicKey(k)
    ensures ParseSingle(cfg, AttributeToString(cfg, k, Flag(b))) ==
      if Dataview(cfg) then (k, Str("true")) else (k, Flag(true))
  {
    if Dataview(cfg) {
      assert AttributeToString(cfg, k, Flag(b)) == AttributeToString(cfg, k, Str("true"));
      DataviewRoundTrip(cfg, k, Str("true"));
    } else {
      assert AttributeToString(cfg, k, Flag(b)) == AttributeToString(cfg, k, Flag(true));
      ClassicRoundTrip(cfg, k, Flag(true));
    }
  }

  /** `m` is one whole match of the pattern, read on its own. */
  predicate Token(cfg: Option<Settings>, m: string) {
    HitAt(cfg, m, 0).Some? && HitAt(cfg, m, 0).value.end == |m|
  }

  lemma SliceOfSlice(s: string, i: nat, e: nat, a: nat, b: nat)
    requires i <= e <= |s| && a <= b <= e - i
    ensures s[i..e][a..b] == s[i + a..i + b]
  {
    var t := s[i..e];
    assert forall q :: 0 <= q < b - a ==> t[a..b][q] == t[a + q] == s[i + a + q];
  }

  /** A run inside a slice is the run in the whole string when it stops inside it. */
  lemma RunShift(s: string, i: nat, e: nat, a: nat, stop: set<char>)
    requires i <= a <= e <= |s| && a + RunAt(s, a, stop) <= e
    ensures RunAt(s[i..e], a - i, stop) == RunAt(s, a, stop)
  {
    RunAtSpec(s, a, stop);
    RunAtIs(s[i..e], a - i, stop, RunAt(s, a, stop));
  }

  lemma WordRunShift(s: string, i: nat, e: nat, a: nat)
    requires i <= a <= e <= |s| && a + WordRunAt(s, a) <= e
    ensures WordRunAt(s[i..e], a - i) == WordRunAt(s, a)
  {
    WordRunAtSpec(s, a);
    WordRunAtIs(s[i..e], a - i, WordRunAt(s, a));
  }

  lemma ClassicBareHit(t: string, w: nat)
    requires 1 + w == |t| && t[0] == '@' && w > 0 && WordRunAt(t, 1) == w
    ensures ClassicAt(t, 0) == Some(Hit(1 + w, t[1..1 + w], None))
  {
  }

  lemma DataviewGroupHit(t: string, k: nat, m: nat)
    requires k + 3 + m < |t| && t[0] == '[' && t[1 + k] == ':' && t[2 + k] == ':'
    requires k > 0 && RunAt(t, 1, {':', ']'}) == k
    requires m > 0 && RunAt(t, k + 3, {']'}) == m
    ensures DataviewAt(t, 0) == Some(Hit(k + 3 + m + 1, t[1..1 + k], Some(t[k + 3..k + 3 + m])))
  {
  }

  /** What a classic match at `i` consists of. */
  lemma ClassicShape(s: string, i: nat, h: Hit)
    requires i <= |s| && ClassicAt(s, i) == Some(h)
    ensures var w := WordRunAt(s, i + 1);
      && 0 < w && i + 1 + w <= h.end && h.key == s[i + 1..i + 1 + w]
      && (h.value.None? ==> h.end == i + 1 + w)
      && (h.value.Some? ==>
        var j := i + 1 + w;
        && j < |s| && RunAt(s, j + 1, {')'}) > 0 && h.end == j + 1 + RunAt(s, j + 1, {')'}) + 1
        && s[j] == '(' && h.value.value == s[j + 1..h.end - 1])
  {
  }

  lemma ClassicAlone(s: string, i: nat, h: Hit)
    requires i <= |s| && ClassicAt(s, i) == Some(h)
    ensures ClassicAt(s[i..h.end], 0) == Some(Hit(h.end - i, h.key, h.value))
  {
    ClassicShape(s, i, h);
    var w := WordRunAt(s, i + 1);
    if h.value.Some? {
      ClassicSliceGroup(s, i, h.end, w, RunAt(s, i + w + 2, {')'}));
    } else {
      ClassicSliceBare(s, i, h.end, w);
    }
  }

  lemma ClassicSliceBare(s: string, i: nat, e: nat, w: nat)
    requires i < e <= |s| && s[i] == '@'
    requires 0 < w && WordRunAt(s, i + 1) == w && e == i + 1 + w
    ensures ClassicAt(s[i..e], 0) == Some(Hit(e - i, s[i + 1..e], None))
  {
    var t := s[i..e];
    WordRunShift(s, i, e, i + 1);
    SliceOfSlice(s, i, e, 1, 1 + w);
    ClassicBareHit(t, w);
  }

  lemma ClassicSliceGroup(s: string, i: nat, e: nat, w: nat, r: nat)
    requires i < e <= |s| && s[i] == '@'
    requires 0 < w && WordRunAt(s, i + 1) == w && i + 1 + w < |s| && s[i + 1 + w] == '('
    requires 0 < r && RunAt(s, i + w + 2, {')'}) == r && e == i + w + 2 + r + 1
    ensures ClassicAt(s[i..e], 0) == Some(Hit(e - i, s[i + 1..i + 1 + w], Some(s[i + w + 2..e - 1])))
  {
    var t := s[i..e];
    WordRunShift(s, i, e, i + 1);
    RunShift(s, i, e, i + w + 2, {')'});
    SliceOfSlice(s, i, e, 1, 1 + w);
    SliceOfSlice(s, i, e, w + 2, w + 2 + r);
    ClassicGroupHit(t, w, r);
  }

  lemma DataviewAlone(s: string, i: nat, h: Hit)
    requires i <= |s| && DataviewAt(s, i) == Some(h)
    ensures DataviewAt(s[i..h.end], 0) == Some(Hit(h.end - i, h.key, h.value))
  {
    var k := RunAt(s, i + 1, {':', ']'});
    DataviewSlice(s, i, h.end, k, RunAt(s, i + k + 3, {']'}));
  }

  lemma DataviewSlice(s: string, i: nat, e: nat, k: nat, m: nat)
    requires i + k + 3 <= e <= |s| && s[i] == '[' && s[i + 1 + k] == ':' && s[i + 2 + k] == ':'
    requires 0 < k && RunAt(s, i + 1, {':', ']'}) == k
    requires 0 < m && RunAt(s, i + k + 3, {']'}) == m && e == i + k + 3 + m + 1
    ensures DataviewAt(s[i..e], 0) == Some(Hit(e - i, s[i + 1..i + 1 + k], Some(s[i + k + 3..e - 1])))
  {
    var t := s[i..e];
    RunShift(s, i, e, i + 1, {':', ']'});
    RunShift(s, i, e, i + k + 3, {']'});
    SliceOfSlice(s, i, e, 1, 1 + k);
    SliceOfSlice(s, i, e, k + 3, k + 3 + m);
    DataviewGroupHit(t, k, m);
  }

  /** The scanner reads nothing outside a match: the matched text on its own is the
      same match, ending at its end. */
  lemma MatchAlone(cfg: Option<Settings>, s: string, i: nat, h: Hit)
    requires i <= |s| && HitAt(cfg, s, i) == Some(h)
    ensures HitAt(cfg, s[i..h.end], 0) == Some(Hit(h.end - i, h.key, h.value))
    ensures Token(cfg, s[i..h.end]) && ParseSingle(cfg, s[i..h.end]) == Groups(h)
  {
    if Dataview(cfg) {
      DataviewAlone(s, i, h);
    } else {
      ClassicAlone(s, i, h);
    }
    ParseAtStart(cfg, s[i..h.end], Hit(h.end - i, h.key, h.value));
  }

  /** Every string the global match returns is a whole match on its own, so
      `parseSingleAttribute` reads back the groups the scan found. */
  lemma {:induction false} MatchesAreTokens(cfg: Option<Settings>, s: string, i: nat)
    requires i <= |s|
    ensures forall k :: 0 <= k < |MatchesFrom(cfg, s, i)| ==> Token(cfg, MatchesFrom(cfg, s, i)[k])
    decreases |s| - i
  {
    if i < |s| {
      match HitAt(cfg, s, i)
      case Some(h) =>
        MatchAlone(cfg, s, i, h);
        MatchesAreTokens(cfg, s, h.end);
        TokensCons(cfg, s[i..h.end], MatchesFrom(cfg, s, h.end));
      case None =>
        MatchesAreTokens(cfg, s, i + 1);
    }
  }

  lemma TokensCons(cfg: Option<Settings>, m: string, ms: seq<string>)
    requires Token(cfg, m) && forall k :: 0 <= k < |ms| ==> Token(cfg, ms[k])
    ensures forall k :: 0 <= k < |[m] + ms| ==> Token(cfg, ([m] + ms)[k])
  {
  }

  /** In the classic syntax a match always has a key of word characters, so none is
      skipped as invalid. */
  lemma ClassicTokenKey(cfg: Option<Settings>, m: string)
    requires !Dataview(cfg) && Token(cfg, m)
    ensures ClassicKey(ParseSingle(cfg, m).0)
  {
    var h := HitAt(cfg, m, 0).value;
    ParseAtStart(cfg, m, h);
    WordRunAtSpec(m, 1);
    assert ClassicKey(h.key);
    WordsTrimmed(h.key);
  }

  /** `[[YYYY-MM-DD]]` at `i`: a fixed fourteen characters. */
  predicate WikilinkAt(s: string, i: nat) {
    && i + 14 <= |s| && s[i] == '[' && s[i + 1] == '[' && LineGrammar.IsDateToken(s[i + 2..i + 12], 10)
    && s[i + 12] == ']' && s[i + 13] == ']'
  }

  predicate IsIsoDate(d: string) {
    |d| == 10 && LineGrammar.IsDateToken(d, 10)
  }

  /** The text a date was found in. */
  function WikilinkText(date: string): string {
    "[[" + date + "]]"
  }

  /** `parseWikilinkDate` from position `i` on: the dates of the successive matches,
      in text order (`trim` changes nothing in a date). */
  function WikilinkDatesFrom(s: string, i: nat): (ds: seq<string>)
    requires i <= |s|
    ensures forall k :: 0 <= k < |ds| ==> IsIsoDate(ds[k]) && Contains(s, WikilinkText(ds[k]))
    ensures forall j :: i <= j && WikilinkAt(s, j) ==> s[j + 2..j + 12] in ds
    decreases |s| - i
  {
    if i == |s| then []
    else if WikilinkAt(s, i) then
      WikilinkFound(s, i);
      WikilinksApart(s, i);
      [s[i + 2..i + 12]] + WikilinkDatesFrom(s, i + 14)
    else WikilinkDatesFrom(s, i + 1)
  }

  /** Two wikilinks never overlap: inside one there is no `[[`. */
  lemma WikilinksApart(s: string, i: nat)
    requires WikilinkAt(s, i)
    ensures forall j :: i < j < i + 14 ==> !WikilinkAt(s, j)
  {
    var u := s[i + 2..i + 12];
    forall j | i < j < i + 14 && j + 1 < |s|
      ensures s[j] != '[' || s[j + 1] != '['
    {
      if j == i + 1 {
        assert s[j + 1] == u[0];
      } else if j < i + 12 {
        assert s[j] == u[j - i - 2];
      }
    }
  }

  function WikilinkDates(s: string): seq<string> {
    WikilinkDatesFrom(s, 0)
  }

  lemma WikilinkFound(s: string, i: nat)
    requires WikilinkAt(s, i)
    ensures IsIsoDate(s[i + 2..i + 12]) && Contains(s, WikilinkText(s[i + 2..i + 12]))
  {
    assert s[i..i + 14] == WikilinkText(s[i + 2..i + 12]);
    assert OccursAt(s, WikilinkText(s[i + 2..i + 12]), i);
    if IndexOfFrom(s, WikilinkText(s[i + 2..i + 12]), 0).None? {
      assert false;
    }
  }
}
