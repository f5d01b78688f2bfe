/**
 * The grammar of one Markdown line as `LineOperations.parseLine` reads it with the
 * regular expression
 *
 *   ^ (\s*)? (?:([*-]|\d+\.)\s*)? (?:(\[.?\])\s+)? (?:((?:\d\d\d\d-)?\d\d-\d\d):\s*)? (.+)
 *
 * (spaces added). The regular expression is executed here as ECMAScript executes it:
 * every optional group and every quantifier tries its alternatives in priority order
 * (greedy lengths first, skipping the group last) and a later stage that fails sends
 * the search back to the next alternative of the stage before it. One function per
 * stage works on the suffix of the line that the stages before it left over and
 * returns the lengths it chose together with the choices of the stages after it.
 */
module LineGrammar {
  import opened Wrappers
  import opened Strings

  /** `ILineStructure`: the five groups of the expression, `""` for a group that did
      not take part in the match. */
  datatype LineStructure = LineStructure(
    indentation: string, listMarker: string, checkbox: string, date: string, line: string)

  /** Choices of the date stage `(?:(date):\s*)?` and of `(.+)`: the length of the
      date (0 when the group is skipped), the length of the white space after its
      colon, and the length of the text. */
  datatype DateScan = DateScan(dateLen: nat, gapLen: nat, lineLen: nat) {
    /** Where the text starts, relative to the start of the stage. */
    function LineStart(): nat {
      if dateLen > 0 then dateLen + 1 + gapLen else gapLen
    }
  }

  /** Choices of the checkbox stage `(?:(\[.?\])\s+)?`. */
  datatype BoxScan = BoxScan(boxLen: nat, gapLen: nat, next: DateScan)

  /** Choices of the list-marker stage `(?:([*-]|\d+\.)\s*)?`. */
  datatype MarkerScan = MarkerScan(markerLen: nat, gapLen: nat, next: BoxScan)

  /** Choices of the whole expression: the length of `(\s*)?` and the rest. */
  datatype LineScan = LineScan(indentLen: nat, next: MarkerScan)

  // ---------------------------------------------------------------------------
  // The atoms of the expression

  /** `(.+)` at the start of `u`: greedy, so it runs up to the first line terminator. */
  function Rest(u: string): (r: Option<nat>)
    ensures r.Some? <==> |u| > 0 && !IsLineTerminator(u[0])
    ensures r.Some? ==> 1 <= r.value <= |u| && NoLineTerminator(u[..r.value])
    ensures r.Some? && r.value < |u| ==> IsLineTerminator(u[r.value])
  {
    if |u| > 0 && !IsLineTerminator(u[0]) then Some(NtRun(u)) else None
  }

  /** `\d\d\d\d-\d\d-\d\d` (length 10) or `\d\d-\d\d` (length 5) at the start of `u`. */
  predicate IsDateToken(u: string, len: nat) {
    if len == 10 then
      && |u| >= 10 && IsDigit(u[0]) && IsDigit(u[1]) && IsDigit(u[2]) && IsDigit(u[3])
      && u[4] == '-' && IsDigit(u[5]) && IsDigit(u[6]) && u[7] == '-' && IsDigit(u[8]) && IsDigit(u[9])
    else if len == 5 then
      |u| >= 5 && IsDigit(u[0]) && IsDigit(u[1]) && u[2] == '-' && IsDigit(u[3]) && IsDigit(u[4])
    else false
  }

  /** `\[.?\]` at the start of `u`, with `.?` taking one character (length 3) or none
      (length 2). */
  predicate IsBox(u: string, len: nat) {
    if len == 3 then |u| >= 3 && u[0] == '[' && !IsLineTerminator(u[1]) && u[2] == ']'
    else if len == 2 then |u| >= 2 && u[0] == '[' && u[1] == ']'
    else false
  }

  /** Length of `[*-]|\d+\.` at the start of `u`, 0 when neither alternative matches.
      Only the longest run of digits can be followed by `.` (a shorter one is followed
      by a digit), so `\d+` giving back digits never helps; see `MarkerLenLongest`. */
  function MarkerLen(u: string): (m: nat)
    ensures m <= |u|
    ensures m == 1 ==> u[0] == '*' || u[0] == '-'
    ensures m >= 2 ==> AllDigits(u[..m - 1]) && u[m - 1] == '.'
  {
    if |u| > 0 && (u[0] == '*' || u[0] == '-') then 1
    else
      var d := DigitRun(u);
      if 0 < d < |u| && u[d] == '.' then d + 1 else 0
  }

  // ---------------------------------------------------------------------------
  // The stages, last to first

  /** `:\s*` followed by `(.+)`: `\s*` gives back white space, from `j` characters down
      to none, until `(.+)` matches. The result is the largest such length. */
  function DateGap(v: string, j: nat): (r: Option<(nat, nat)>)
    requires j <= |v|
    ensures r.Some? ==> r.value.0 <= j && Rest(v[r.value.0..]) == Some(r.value.1)
    ensures r.Some? ==> forall i :: r.value.0 < i <= j ==> Rest(v[i..]).None?
    ensures r.None? ==> forall i :: 0 <= i <= j ==> Rest(v[i..]).None?
    decreases j
  {
    match Rest(v[j..])
    case Some(n) => Some((j, n))
    case None => if j == 0 then None else DateGap(v, j - 1)
  }

  /** The date alternative of length `len`, followed by the rest of the expression. */
  function DateOption(u: string, len: nat): (r: Option<DateScan>)
    ensures r.Some? ==> r.value.dateLen == len && len < |u| && IsDateToken(u, len) && u[len] == ':'
    ensures r.Some? ==> DateFits(u, r.value)
  {
    if len < |u| && IsDateToken(u, len) && u[len] == ':' then
      var v := u[len + 1..];
      match DateGap(v, WsRun(v))
      case Some((j, n)) => Some(DateScan(len, j, n))
      case None => None
    else None
  }

  /** `(?:((?:\d\d\d\d-)?\d\d-\d\d):\s*)?(.+)`: the long date, then the short one, then
      no date at all. */
  function DateStage(u: string): (r: Option<DateScan>)
    ensures r.Some? <==> |u| > 0 && !IsLineTerminator(u[0])
    ensures r.Some? ==> DateFits(u, r.value)
  {
    match DateOption(u, 10)
    case Some(d) => Some(d)
    case None =>
      match DateOption(u, 5)
      case Some(d) => Some(d)
      case None =>
        match Rest(u)
        case Some(n) => Some(DateScan(0, 0, n))
        case None => None
  }

  /** `\s+` after the checkbox: from `j` characters down to one, until the date stage
      matches. The result is the largest such length. */
  function BoxGap(v: string, j: nat): (r: Option<(nat, DateScan)>)
    requires j <= |v|
    ensures r.Some? ==> 1 <= r.value.0 <= j && DateStage(v[r.value.0..]) == Some(r.value.1)
    ensures r.Some? ==> forall i :: r.value.0 < i <= j ==> DateStage(v[i..]).None?
    ensures r.None? ==> forall i :: 1 <= i <= j ==> DateStage(v[i..]).None?
    decreases j
  {
    if j == 0 then None
    else
      match DateStage(v[j..])
      case Some(d) => Some((j, d))
      case None => BoxGap(v, j - 1)
  }

  function BoxOption(u: string, len: nat): (r: Option<BoxScan>)
    ensures r.Some? ==> r.value.boxLen == len && IsBox(u, len) && BoxFits(u, r.value)
  {
    if IsBox(u, len) then
      var v := u[len..];
      match BoxGap(v, WsRun(v))
      case Some((j, d)) => Some(BoxScan(len, j, d))
      case None => None
    else None
  }

  /** `(?:(\[.?\])\s+)?` and the stages after it: `.?` first takes a character, then
      none, then the group is skipped. */
  function CheckboxStage(u: string): (r: Option<BoxScan>)
    ensures r.Some? <==> |u| > 0 && !IsLineTerminator(u[0])
    ensures r.Some? ==> BoxFits(u, r.value)
  {
    match BoxOption(u, 3)
    case Some(b) => Some(b)
    case None =>
      match BoxOption(u, 2)
      case Some(b) => Some(b)
      case None =>
        match DateStage(u)
        case Some(d) => Some(BoxScan(0, 0, d))
        case None => None
  }

  /** `\s*` after the list marker: from `j` characters down to none. */
  function MarkerGap(v: string, j: nat): (r: Option<(nat, BoxScan)>)
    requires j <= |v|
    ensures r.Some? ==> r.value.0 <= j && CheckboxStage(v[r.value.0..]) == Some(r.value.1)
    ensures r.Some? ==> forall i :: r.value.0 < i <= j ==> CheckboxStage(v[i..]).None?
    ensures r.None? ==> forall i :: 0 <= i <= j ==> CheckboxStage(v[i..]).None?
    decreases j
  {
    match CheckboxStage(v[j..])
    case Some(b) => Some((j, b))
    case None => if j == 0 then None else MarkerGap(v, j - 1)
  }

  function MarkerOption(u: string): (r: Option<MarkerScan>)
    ensures r.Some? ==> r.value.markerLen == MarkerLen(u) > 0 && MarkerFits(u, r.value)
  {
    var m := MarkerLen(u);
    if m > 0 then
      var v := u[m..];
      match MarkerGap(v, WsRun(v))
      case Some((j, b)) => Some(MarkerScan(m, j, b))
      case None => None
    else None
  }

  /** `(?:([*-]|\d+\.)\s*)?` and the stages after it. */
  function MarkerStage(u: string): (r: Option<MarkerScan>)
    ensures r.Some? <==> |u| > 0 && !IsLineTerminator(u[0])
    ensures r.Some? ==> MarkerFits(u, r.value)
  {
    match MarkerOption(u)
    case Some(m) => Some(m)
    case None =>
      match CheckboxStage(u)
      case Some(b) => Some(MarkerScan(0, 0, b))
      case None => None
  }

  /** `^(\s*)?`: the indentation gives back white space, from `k` characters down to
      none, until the rest of the expression matches. */
  function IndentSearch(s: string, k: nat): (r: Option<LineScan>)
    requires k <= |s|
    ensures r.Some? ==> r.value.indentLen <= k && MarkerStage(s[r.value.indentLen..]) == Some(r.value.next)
    ensures r.Some? ==> forall i :: r.value.indentLen < i <= k ==> MarkerStage(s[i..]).None?
    ensures r.None? ==> forall i :: 0 <= i <= k ==> MarkerStage(s[i..]).None?
    decreases k
  {
    match MarkerStage(s[k..])
    case Some(m) => Some(LineScan(k, m))
    case None => if k == 0 then None else IndentSearch(s, k - 1)
  }

  /** `regexp.exec(line)`: the choices of the first match, if there is one. */
  function Scan(s: string): (r: Option<LineScan>)
    ensures r.Some? ==> LineFits(s, r.value)
  {
    IndentSearch(s, WsRun(s))
  }

  // ---------------------------------------------------------------------------
  // What a match leaves in each group

  predicate DateFits(u: string, d: DateScan) {
    if d.dateLen > 0 then
      d.dateLen < |u| && u[d.dateLen] == ':' && d.gapLen <= |u[d.dateLen + 1..]|
      && d.lineLen <= |u[d.dateLen + 1..][d.gapLen..]|
    else
      d.gapLen == 0 && d.lineLen <= |u|
  }

  predicate BoxFits(u: string, b: BoxScan) {
    if b.boxLen > 0 then
      b.boxLen <= |u| && b.gapLen <= |u[b.boxLen..]| && DateFits(u[b.boxLen..][b.gapLen..], b.next)
    else
      b.gapLen == 0 && DateFits(u, b.next)
  }

  predicate MarkerFits(u: string, m: MarkerScan) {
    if m.markerLen > 0 then
      m.markerLen <= |u| && m.gapLen <= |u[m.markerLen..]|
      && BoxFits(u[m.markerLen..][m.gapLen..], m.next)
    else
      m.gapLen == 0 && BoxFits(u, m.next)
  }

  predicate LineFits(s: string, l: LineScan) {
    l.indentLen <= |s| && MarkerFits(s[l.indentLen..], l.next)
  }

  /** The groups of a match together with the white space the expression skips between
      them and the part of the line after `(.+)`. */
  datatype Layout = Layout(
    fields: LineStructure, markerGap: string, boxGap: string, dateGap: string, tail: string)

  /** The pieces are cut out of `u` in the order the stages consume it: a stage that
      takes something cuts it off the front and hands the remainder on. */
  function DateLayout(u: string, d: DateScan): Layout
    requires DateFits(u, d)
  {
    if d.dateLen > 0 then
      var v := u[d.dateLen + 1..];
      var w := v[d.gapLen..];
      Layout(LineStructure("", "", "", u[..d.dateLen], w[..d.lineLen]), "", "", v[..d.gapLen], w[d.lineLen..])
    else
      Layout(LineStructure("", "", "", "", u[..d.lineLen]), "", "", "", u[d.lineLen..])
  }

  function BoxLayout(u: string, b: BoxScan): Layout
    requires BoxFits(u, b)
  {
    if b.boxLen > 0 then
      var v := u[b.boxLen..];
      var l := DateLayout(v[b.gapLen..], b.next);
      l.(fields := l.fields.(checkbox := u[..b.boxLen]), boxGap := v[..b.gapLen])
    else
      DateLayout(u, b.next)
  }

  function MarkerLayout(u: string, m: MarkerScan): Layout
    requires MarkerFits(u, m)
  {
    if m.markerLen > 0 then
      var v := u[m.markerLen..];
      var l := BoxLayout(v[m.gapLen..], m.next);
      l.(fields := l.fields.(listMarker := u[..m.markerLen]), markerGap := v[..m.gapLen])
    else
      BoxLayout(u, m.next)
  }

  function LineLayout(s: string, l: LineScan): Layout
    requires LineFits(s, l)
  {
    var r := MarkerLayout(s[l.indentLen..], l.next);
    r.(fields := r.fields.(indentation := s[..l.indentLen]))
  }

  /** The colon `(?:(date):\s*)?` puts after a date. */
  function DateColon(date: string): string {
    if date == "" then "" else ":"
  }

  /** The part of the line a layout describes from the date stage on. */
  function DatePart(l: Layout): string {
    l.fields.date + DateColon(l.fields.date) + l.dateGap + l.fields.line + l.tail
  }

  function BoxPart(l: Layout): string {
    l.fields.checkbox + l.boxGap + DatePart(l)
  }

  function MarkerPart(l: Layout): string {
    l.fields.listMarker + l.markerGap + BoxPart(l)
  }

  /** The line a layout describes: the groups with the skipped white space between them
      and the tail after them. */
  function Assemble(l: Layout): string {
    l.fields.indentation + MarkerPart(l)
  }

  // ---------------------------------------------------------------------------
  // The shape of what each stage leaves

  predicate IsDate(date: string) {
    IsDateToken(date, |date|)
  }

  predicate IsCheckbox(checkbox: string) {
    IsBox(checkbox, |checkbox|)
  }

  predicate IsListMarker(marker: string) {
    |marker| > 0 && MarkerLen(marker) == |marker|
  }

  /** The text could itself be read as a date of length `len` followed by more text. */
  predicate DateHead(line: string, len: nat) {
    len + 1 < |line| && IsDateToken(line, len) && line[len] == ':'
  }

  /** The text could itself be read as a checkbox of length `len` followed by more text. */
  predicate BoxHead(line: string, len: nat) {
    len + 1 < |line| && IsBox(line, len) && IsWhitespace(line[len])
  }

  /** The text could itself be read as a list marker followed by more text. */
  predicate MarkerHead(line: string) {
    0 < MarkerLen(line) < |line|
  }

  predicate TextOk(line: string) {
    |line| > 0 && NoLineTerminator(line)
  }

  /** A quantifier position `i` at which no later stage can start: the end of the line or
      a line terminator. */
  predicate Blocked(v: string, i: nat) {
    i >= |v| || IsLineTerminator(v[i])
  }

  predicate TailOk(tail: string) {
    tail == [] || IsLineTerminator(tail[0])
  }

  /** The text holds no line terminator, and the part of the line after it is empty or
      starts with one: `(.+)` took as much as it could. */
  predicate TextFacts(l: Layout) {
    TextOk(l.fields.line) && TailOk(l.tail)
  }

  /** What the date stage leaves: a date or none, white space after its colon, and text
      that the date alternatives could not have read as a date. */
  predicate DateFacts(l: Layout) {
    var f := l.fields;
    && (f.date == "" || IsDate(f.date))
    && AllWhitespace(l.dateGap)
    && (f.date == "" ==> l.dateGap == "" && !DateHead(f.line, 10) && !DateHead(f.line, 5))
  }

  /** What the checkbox stage leaves. */
  predicate BoxFacts(l: Layout) {
    var f := l.fields;
    && (f.checkbox == "" || IsCheckbox(f.checkbox))
    && AllWhitespace(l.boxGap)
    && (f.checkbox == "" <==> l.boxGap == "")
    && (f.checkbox == "" && f.date == "" ==> !BoxHead(f.line, 3) && !BoxHead(f.line, 2))
  }

  /** What the list-marker stage leaves. */
  predicate MarkerFacts(l: Layout) {
    var f := l.fields;
    && (f.listMarker == "" || IsListMarker(f.listMarker))
    && AllWhitespace(l.markerGap)
    && (f.listMarker == "" ==> l.markerGap == "")
    && (f.listMarker == "" && f.checkbox == "" && f.date == "" ==> !MarkerHead(f.line))
  }

  /** Text that starts with white space is a single character, unless it starts where
      the stage that produced it started. */
  predicate WsRule(u: string, line: string)
    requires |line| > 0
  {
    IsWhitespace(line[0]) ==> |line| == 1 || (|line| <= |u| && line == u[..|line|])
  }

  /** When a greedy run of white space had to give back characters, every longer choice
      was blocked: so the run reached the end of the line, and the position after the
      chosen one is blocked too. */
  lemma GapBackOff(v: string, j: nat)
    requires j < WsRun(v)
    requires forall i :: j < i <= WsRun(v) ==> Blocked(v, i)
    ensures WsRun(v) == |v| && Blocked(v, j + 1)
  {
    assert Blocked(v, WsRun(v));
    assert Blocked(v, j + 1);
  }

  /** Text that starts inside a white-space run that gave back characters is a single
      character. */
  lemma GapText(v: string, j: nat, line: string)
    requires j <= WsRun(v)
    requires forall i :: j < i <= WsRun(v) ==> Blocked(v, i)
    requires j < |v| && IsWhitespace(v[j])
    requires TextOk(line) && |line| <= |v[j..]| && line == v[j..][..|line|]
    ensures |line| == 1
  {
    assert j < WsRun(v);
    GapBackOff(v, j);
  }

  lemma RestNoneBlocked(v: string, i: nat)
    requires i <= |v| && Rest(v[i..]).None?
    ensures Blocked(v, i)
  {
    if i < |v| {
      assert v[i..][0] == v[i];
    }
  }

  lemma DateNoneBlocked(v: string, i: nat)
    requires i <= |v| && DateStage(v[i..]).None?
    ensures Blocked(v, i)
  {
    if i < |v| {
      assert v[i..][0] == v[i];
    }
  }

  lemma BoxNoneBlocked(v: string, i: nat)
    requires i <= |v| && CheckboxStage(v[i..]).None?
    ensures Blocked(v, i)
  {
    if i < |v| {
      assert v[i..][0] == v[i];
    }
  }

  lemma MarkerNoneBlocked(v: string, i: nat)
    requires i <= |v| && MarkerStage(v[i..]).None?
    ensures Blocked(v, i)
  {
    if i < |v| {
      assert v[i..][0] == v[i];
    }
  }

  /** Slices of a suffix are slices of the whole. */
  lemma SuffixSlice(u: string, a: nat, b: nat, c: nat)
    requires a + c <= |u| && b <= c
    ensures u[a..][b..c] == u[a + b..a + c]
    ensures u[a..][b..] == u[a + b..]
    ensures u[a..][..c] == u[a..a + c]
  {
  }

  /** A date at the start of `u` is a date at the start of every prefix that holds it. */
  lemma DateTokenPrefix(u: string, len: nat, k: nat)
    requires IsDateToken(u, len) && len <= k <= |u|
    ensures IsDateToken(u[..k], len)
  {
  }

  lemma BoxPrefix(u: string, len: nat, k: nat)
    requires IsBox(u, len) && len <= k <= |u|
    ensures IsBox(u[..k], len)
  {
  }

  /** A list marker at the start of a prefix of `u` that holds more than the marker is the
      list marker of `u`. */
  lemma MarkerLenPrefix(u: string, k: nat)
    requires k <= |u| && 0 < MarkerLen(u[..k]) < k
    ensures MarkerLen(u) == MarkerLen(u[..k])
  {
    var p := u[..k];
    if !(p[0] == '*' || p[0] == '-') {
      DigitRunPrefix(u, k);
    }
  }

  lemma {:induction false} DigitRunPrefix(u: string, k: nat)
    requires k <= |u| && DigitRun(u[..k]) < k
    ensures DigitRun(u) == DigitRun(u[..k])
  {
    if |u| > 0 && IsDigit(u[0]) {
      assert u[1..][..k - 1] == u[..k][1..];
      DigitRunPrefix(u[1..], k - 1);
    }
  }

  /** The marker a stage cut off is a list marker on its own. */
  lemma MarkerLenCut(u: string)
    requires MarkerLen(u) > 0
    ensures MarkerLen(u[..MarkerLen(u)]) == MarkerLen(u)
  {
    var m := MarkerLen(u);
    if !(u[0] == '*' || u[0] == '-') {
      DigitRunPrefix(u, m);
    }
  }

  // ---------------------------------------------------------------------------
  // Soundness of the date stage

  lemma DateOptionSound(u: string, len: nat, d: DateScan)
    requires DateOption(u, len) == Some(d)
    ensures var l := DateLayout(u, d); TextFacts(l) && DateFacts(l) && WsRule(u, l.fields.line)
  {
    var v := u[len + 1..];
    var j, n := d.gapLen, d.lineLen;
    assert DateGap(v, WsRun(v)) == Some((j, n));
    var w := v[j..];
    assert Rest(w) == Some(n);
    WsPrefix(v, j);
    if n < |w| {
      assert w[n..][0] == w[n];
    }
    if IsWhitespace(w[..n][0]) {
      forall i | j < i <= WsRun(v)
        ensures Blocked(v, i)
      {
        RestNoneBlocked(v, i);
      }
      assert w[..n][0] == v[j];
      GapText(v, j, w[..n]);
    }
    DateTokenPrefix(u, len, len);
  }

  /** A date alternative that fails although its date and colon are there leaves nothing
      for `(.+)` after the colon. */
  lemma DateOptionBlocked(u: string, len: nat, n: nat)
    requires DateOption(u, len).None? && Rest(u) == Some(n)
    requires len < |u| && IsDateToken(u, len) && u[len] == ':'
    ensures n <= len + 1
  {
    var v := u[len + 1..];
    assert Rest(v[0..]).None?;
    RestNoneBlocked(v, 0);
  }

  lemma DateSkipSound(u: string, d: DateScan)
    requires DateOption(u, 10).None? && DateOption(u, 5).None?
    requires Rest(u).Some? && d == DateScan(0, 0, Rest(u).value)
    ensures var l := DateLayout(u, d); TextFacts(l) && DateFacts(l) && WsRule(u, l.fields.line)
  {
    var n := d.lineLen;
    var line := u[..n];
    if n < |u| {
      assert u[n..][0] == u[n];
    }
    if DateHead(line, 10) {
      DateOptionBlocked(u, 10, n);
    }
    if DateHead(line, 5) {
      DateOptionBlocked(u, 5, n);
    }
  }

  lemma DateStageSound(u: string, d: DateScan)
    requires DateStage(u) == Some(d)
    ensures var l := DateLayout(u, d); TextFacts(l) && DateFacts(l) && WsRule(u, l.fields.line)
  {
    if DateOption(u, 10).Some? {
      DateOptionSound(u, 10, d);
    } else if DateOption(u, 5).Some? {
      DateOptionSound(u, 5, d);
    } else {
      DateSkipSound(u, d);
    }
  }

  // ---------------------------------------------------------------------------
  // Soundness of the checkbox stage

  lemma BoxOptionSound(u: string, len: nat, b: BoxScan)
    requires BoxOption(u, len) == Some(b)
    ensures var l := BoxLayout(u, b);
      TextFacts(l) && DateFacts(l) && BoxFacts(l) && WsRule(u, l.fields.line)
  {
    var v := u[len..];
    var j, d := b.gapLen, b.next;
    assert BoxGap(v, WsRun(v)) == Some((j, d));
    var w := v[j..];
    DateStageSound(w, d);
    WsPrefix(v, j);
    BoxPrefix(u, len, len);
    var line := DateLayout(w, d).fields.line;
    if IsWhitespace(line[0]) && |line| != 1 {
      forall i | j < i <= WsRun(v)
        ensures Blocked(v, i)
      {
        DateNoneBlocked(v, i);
      }
      assert line[0] == v[j];
      GapText(v, j, line);
    }
  }

  /** A checkbox alternative that fails although its brackets are there is followed by
      at most one more character of text. */
  lemma BoxOptionBlocked(u: string, len: nat, line: string)
    requires BoxOption(u, len).None? && IsBox(u, len)
    requires TextOk(line) && |line| <= |u| && line == u[..|line|]
    ensures !BoxHead(line, len)
  {
    BoxNoneShape(u, len);
    if len + 1 < |line| {
      assert line[len] == u[len] && line[len + 1] == u[len + 1];
    }
  }

  /** When the checkbox alternative fails although its brackets are there, a white space
      after them is the last character or is followed by a line terminator. */
  lemma BoxNoneShape(u: string, len: nat)
    requires BoxOption(u, len).None? && IsBox(u, len)
    ensures len < |u| && IsWhitespace(u[len]) ==> len + 1 >= |u| || IsLineTerminator(u[len + 1])
  {
    if len < |u| && IsWhitespace(u[len]) {
      var v := u[len..];
      assert v[0] == u[len];
      var w := WsRun(v);
      assert BoxGap(v, w).None?;
      GapBlocked(v, w);
      if len + 1 < |u| {
        assert v[1] == u[len + 1];
      }
    }
  }

  /** No length of the gap after the checkbox lets the date stage match at `1`. */
  lemma GapBlocked(v: string, w: nat)
    requires 1 <= w <= |v| && forall i :: 1 <= i <= w ==> DateStage(v[i..]).None?
    ensures Blocked(v, 1)
  {
    DateNoneBlocked(v, 1);
  }

  lemma BoxSkipSound(u: string, b: BoxScan)
    requires BoxOption(u, 3).None? && BoxOption(u, 2).None?
    requires DateStage(u).Some? && b == BoxScan(0, 0, DateStage(u).value)
    ensures var l := BoxLayout(u, b);
      TextFacts(l) && DateFacts(l) && BoxFacts(l) && WsRule(u, l.fields.line)
  {
    var d := b.next;
    DateStageSound(u, d);
    var l := DateLayout(u, d);
    if l.fields.date == "" {
      assert l.fields.line == u[..d.lineLen];
      if IsBox(u, 3) {
        BoxOptionBlocked(u, 3, l.fields.line);
      }
      if IsBox(u, 2) {
        BoxOptionBlocked(u, 2, l.fields.line);
      }
    }
  }

  lemma BoxStageSound(u: string, b: BoxScan)
    requires CheckboxStage(u) == Some(b)
    ensures var l := BoxLayout(u, b);
      TextFacts(l) && DateFacts(l) && BoxFacts(l) && WsRule(u, l.fields.line)
  {
    if BoxOption(u, 3).Some? {
      BoxOptionSound(u, 3, b);
    } else if BoxOption(u, 2).Some? {
      BoxOptionSound(u, 2, b);
    } else {
      BoxSkipSound(u, b);
    }
  }

  // ---------------------------------------------------------------------------
  // Soundness of the list-marker stage

  lemma MarkerOptionSound(u: string, m: MarkerScan)
    requires MarkerOption(u) == Some(m)
    ensures var l := MarkerLayout(u, m);
      TextFacts(l) && DateFacts(l) && BoxFacts(l) && MarkerFacts(l) && WsRule(u, l.fields.line)
  {
    var len := MarkerLen(u);
    var v := u[len..];
    var j, b := m.gapLen, m.next;
    assert MarkerGap(v, WsRun(v)) == Some((j, b));
    var w := v[j..];
    BoxStageSound(w, b);
    WsPrefix(v, j);
    MarkerLenCut(u);
    var line := BoxLayout(w, b).fields.line;
    if IsWhitespace(line[0]) && |line| != 1 {
      forall i | j < i <= WsRun(v)
        ensures Blocked(v, i)
      {
        BoxNoneBlocked(v, i);
      }
      assert line[0] == v[j];
      GapText(v, j, line);
    }
  }

  /** When the list marker alternative fails, nothing but the end of the line or a line
      terminator follows the marker. */
  lemma MarkerFailBlocked(u: string)
    requires MarkerOption(u).None? && MarkerLen(u) > 0
    ensures Blocked(u, MarkerLen(u))
  {
    var m := MarkerLen(u);
    var v := u[m..];
    assert CheckboxStage(v[0..]).None?;
    BoxNoneBlocked(v, 0);
    if m < |u| {
      assert v[0] == u[m];
    }
  }

  /** Text that starts with a list marker and holds more than the marker cannot be a
      prefix of a line whose list marker fails. */
  lemma MarkerHeadBlocked(u: string, line: string)
    requires MarkerLen(u) > 0 ==> Blocked(u, MarkerLen(u))
    requires TextOk(line) && |line| <= |u| && line == u[..|line|]
    ensures !MarkerHead(line)
  {
    if MarkerHead(line) {
      MarkerLenPrefix(u, |line|);
    }
  }

  /** A list marker that fails is followed by nothing the text could hold. */
  lemma MarkerOptionBlocked(u: string, line: string)
    requires MarkerOption(u).None?
    requires TextOk(line) && |line| <= |u| && line == u[..|line|]
    ensures !MarkerHead(line)
  {
    if MarkerLen(u) > 0 {
      MarkerFailBlocked(u);
    }
    MarkerHeadBlocked(u, line);
  }

  lemma MarkerSkipSound(u: string, m: MarkerScan)
    requires MarkerOption(u).None?
    requires CheckboxStage(u).Some? && m == MarkerScan(0, 0, CheckboxStage(u).value)
    ensures var l := MarkerLayout(u, m);
      TextFacts(l) && DateFacts(l) && BoxFacts(l) && MarkerFacts(l) && WsRule(u, l.fields.line)
  {
    var b := m.next;
    BoxStageSound(u, b);
    var l := BoxLayout(u, b);
    if l.fields.checkbox == "" && l.fields.date == "" {
      assert l.fields.line == u[..b.next.lineLen];
      MarkerOptionBlocked(u, l.fields.line);
    }
  }

  lemma MarkerStageSound(u: string, m: MarkerScan)
    requires MarkerStage(u) == Some(m)
    ensures var l := MarkerLayout(u, m);
      TextFacts(l) && DateFacts(l) && BoxFacts(l) && MarkerFacts(l) && WsRule(u, l.fields.line)
  {
    if MarkerOption(u).Some? {
      MarkerOptionSound(u, m);
    } else {
      MarkerSkipSound(u, m);
    }
  }

  // ---------------------------------------------------------------------------
  // Soundness of the whole expression

  /** What a match leaves in its groups: white-space indentation, and the facts of every
      stage; text that starts with white space is a single character. */
  lemma LineSound(s: string, l: LineScan)
    requires Scan(s) == Some(l)
    ensures var r := LineLayout(s, l);
      && AllWhitespace(r.fields.indentation)
      && TextFacts(r) && DateFacts(r) && BoxFacts(r) && MarkerFacts(r)
      && (IsWhitespace(r.fields.line[0]) ==> |r.fields.line| == 1)
  {
    var k := l.indentLen;
    var u := s[k..];
    MarkerStageSound(u, l.next);
    WsPrefix(s, k);
    var line := MarkerLayout(u, l.next).fields.line;
    if IsWhitespace(line[0]) && |line| != 1 {
      forall i | k < i <= WsRun(s)
        ensures Blocked(s, i)
      {
        MarkerNoneBlocked(s, i);
      }
      assert line[0] == s[k];
      GapText(s, k, line);
    }
  }

  /** The expression matches exactly when the line holds a character other than a line
      terminator. */
  lemma ScanMatches(s: string)
    ensures Scan(s).Some? <==> exists i :: 0 <= i < |s| && !IsLineTerminator(s[i])
  {
    var k := WsRun(s);
    if i :| 0 <= i < |s| && !IsLineTerminator(s[i]) {
      var p := if k < |s| then k else i;
      assert s[p..][0] == s[p];
      assert MarkerStage(s[p..]).Some?;
    }
    if Scan(s).Some? {
      var j := Scan(s).value.indentLen;
      assert s[j..][0] == s[j];
    }
  }

  // ---------------------------------------------------------------------------
  // A match cuts the line into pieces and loses none

  lemma DateSplit(u: string, d: DateScan)
    requires DateFits(u, d)
    ensures DatePart(DateLayout(u, d)) == u
  {
    if d.dateLen > 0 {
      var v := u[d.dateLen + 1..];
      Cut3(v, d.gapLen, d.lineLen);
      ColonCut(u, d.dateLen);
      Assoc5(u[..d.dateLen], ":", v[..d.gapLen], v[d.gapLen..][..d.lineLen], v[d.gapLen..][d.lineLen..]);
    } else {
      Cut3(u, 0, d.lineLen);
      assert u[..0] == "" && u[0..] == u;
    }
  }

  lemma ColonCut(u: string, i: nat)
    requires i < |u| && u[i] == ':'
    ensures u == u[..i] + ":" + u[i + 1..]
  {
  }

  lemma Assoc5(a: string, b: string, c: string, d: string, e: string)
    ensures a + b + c + d + e == (a + b) + (c + d + e)
  {
  }

  /** A line is the piece a stage cuts off, the white space after it and the rest. */
  lemma Cut3(u: string, a: nat, b: nat)
    requires a <= |u| && b <= |u[a..]|
    ensures u == u[..a] + u[a..][..b] + u[a..][b..]
  {
    var v := u[a..];
    assert v == v[..b] + v[b..];
    assert u == u[..a] + v;
  }

  lemma BoxSplit(u: string, b: BoxScan)
    requires BoxFits(u, b)
    ensures BoxPart(BoxLayout(u, b)) == u
  {
    if b.boxLen > 0 {
      var v := u[b.boxLen..];
      var w := v[b.gapLen..];
      DateSplit(w, b.next);
      Cut3(u, b.boxLen, b.gapLen);
    } else {
      DateSplit(u, b.next);
    }
  }

  lemma MarkerSplit(u: string, m: MarkerScan)
    requires MarkerFits(u, m)
    ensures MarkerPart(MarkerLayout(u, m)) == u
  {
    if m.markerLen > 0 {
      var v := u[m.markerLen..];
      var w := v[m.gapLen..];
      BoxSplit(w, m.next);
      Cut3(u, m.markerLen, m.gapLen);
    } else {
      BoxSplit(u, m.next);
    }
  }

  /** The groups, the white space between them and the tail make up the whole line. */
  lemma LineSplit(s: string, l: LineScan)
    requires LineFits(s, l)
    ensures Assemble(LineLayout(s, l)) == s
  {
    var r := MarkerLayout(s[l.indentLen..], l.next);
    MarkerSplit(s[l.indentLen..], l.next);
    Cut3(s, l.indentLen, 0);
    assert MarkerPart(r.(fields := r.fields.(indentation := s[..l.indentLen]))) == MarkerPart(r);
  }
}
