/**
 * `LineOperations.parseLine` and `LineOperations.lineToString`, and how the two undo
 * each other: a well-formed structure survives a trip through its line, every match
 * gives a well-formed structure, and so parsing the written-out line of a parse
 * changes nothing.
 */
module LineFormat {
  import opened Wrappers
  import opened Strings
  import opened LineGrammar

  /** `parseLine`: the groups of the first match, or the whole line as text when the
      expression does not match. */
  function ParseLine(s: string): LineStructure {
    match Scan(s)
    case None => LineStructure("", "", "", "", s)
    case Some(l) => LineLayout(s, l).fields
  }

  /** The `space` helper of `lineToString`: the item followed by `sep`, or nothing for
      an empty item. */
  function Space(item: string, sep: string): string {
    if item == "" then "" else item + sep
  }

  function DateText(date: string, line: string): string {
    Space(date, ": ") + line
  }

  function BoxText(checkbox: string, date: string, line: string): string {
    Space(checkbox, " ") + DateText(date, line)
  }

  function MarkerText(listMarker: string, checkbox: string, date: string, line: string): string {
    Space(listMarker, " ") + BoxText(checkbox, date, line)
  }

  /** `lineToString`: the indentation, the list marker, the checkbox and the date, each
      followed by its separator when it is not empty, then the text. */
  function LineToString(f: LineStructure): string {
    f.indentation + MarkerText(f.listMarker, f.checkbox, f.date, f.line)
  }

  // ---------------------------------------------------------------------------
  // The structures a match can produce

  /** The groups after the list marker and the text, as a match leaves them. */
  predicate DateOk(date: string, line: string) {
    && (date == "" || IsDate(date))
    && TextOk(line) && (IsWhitespace(line[0]) ==> |line| == 1)
    && (date == "" ==> !DateHead(line, 10) && !DateHead(line, 5))
  }

  predicate BoxOk(checkbox: string, date: string, line: string) {
    && (checkbox == "" || IsCheckbox(checkbox))
    && DateOk(date, line)
    && (checkbox == "" && date == "" ==> !BoxHead(line, 3) && !BoxHead(line, 2))
  }

  predicate MarkerOk(listMarker: string, checkbox: string, date: string, line: string) {
    && (listMarker == "" || IsListMarker(listMarker))
    && BoxOk(checkbox, date, line)
    && (listMarker == "" && checkbox == "" && date == "" ==> !MarkerHead(line))
  }

  /** White-space indentation, a list marker, checkbox and date of the right shape or
      empty, non-empty text without line terminators that is a single character when it
      starts with white space, and no text that the expression would read as one of the
      empty groups. */
  predicate WellFormed(f: LineStructure) {
    AllWhitespace(f.indentation) && MarkerOk(f.listMarker, f.checkbox, f.date, f.line)
  }

  /** Every match gives a well-formed structure. */
  lemma ParseLineWellFormed(s: string)
    requires Scan(s).Some?
    ensures WellFormed(ParseLine(s))
  {
    LineSound(s, Scan(s).value);
  }

  /** The expression fails only on a line made of line terminators (the empty line
      among them), and then the line comes back unchanged as the text. */
  lemma ParseLineNoMatch(s: string)
    ensures Scan(s).None? <==> AllLineTerminators(s)
    ensures Scan(s).None? ==> ParseLine(s) == LineStructure("", "", "", "", s)
  {
    ScanMatches(s);
  }

  // ---------------------------------------------------------------------------
  // What the stages choose on a line written out by `lineToString`

  /** Text that every stage hands on unchanged to the next. */
  predicate Lead(t: string) {
    |t| > 0 && !IsLineTerminator(t[0]) && (IsWhitespace(t[0]) ==> |t| == 1)
  }

  /** The one white-space run `WsRun` can find: it is unique. */
  lemma {:induction false} WsRunIs(s: string, n: nat)
    requires n <= |s| && AllWhitespace(s[..n]) && (n < |s| ==> !IsWhitespace(s[n]))
    ensures WsRun(s) == n
  {
    if n > 0 {
      assert s[..n][0] == s[0];
      assert s[1..][..n - 1] == s[..n][1..];
      if n < |s| {
        assert s[1..][n - 1] == s[n];
      }
      WsRunIs(s[1..], n - 1);
    }
  }

  lemma {:induction false} DigitRunIs(s: string, n: nat)
    requires n <= |s| && AllDigits(s[..n]) && (n < |s| ==> !IsDigit(s[n]))
    ensures DigitRun(s) == n
  {
    if n > 0 {
      assert s[..n][0] == s[0];
      assert s[1..][..n - 1] == s[..n][1..];
      if n < |s| {
        assert s[1..][n - 1] == s[n];
      }
      DigitRunIs(s[1..], n - 1);
    }
  }

  /** One space in front of lead text: a white-space run of one, or of two reaching the
      end. */
  lemma SpaceRun(t: string)
    requires Lead(t)
    ensures var v := [' '] + t;
      v[1..] == t && v[..1] == " " && (WsRun(v) == 1 || (WsRun(v) == 2 && v[2..] == []))
  {
    var v := [' '] + t;
    assert v[1..] == t;
    if IsWhitespace(t[0]) {
      WsRunIs(v, 2);
      assert v[2..] == [];
    } else {
      WsRunIs(v, 1);
    }
  }

  lemma RestText(line: string)
    requires TextOk(line)
    ensures Rest(line) == Some(|line|)
  {

  }

  /** A non-empty item, its separator and the rest. */
  lemma SpaceParts(item: string, sep: string, rest: string)
    requires item != ""
    ensures var u := Space(item, sep) + rest;
      |item| <= |u| && u[..|item|] == item && u[|item|..] == sep + rest
  {
    var u := Space(item, sep) + rest;
    assert u == item + (sep + rest);
  }

  lemma DateParts(date: string, line: string)
    requires date != ""
    ensures var u := DateText(date, line);
      |date| < |u| && u[..|date|] == date && u[|date|] == ':' && u[|date| + 1..] == [' '] + line
  {
    SpaceParts(date, ": ", line);
    var u := DateText(date, line);
    assert u[|date|..] == ": " + line;
    assert u[|date| + 1..] == u[|date|..][1..];
  }

  /** An item of one of the shapes the stages accept, one space and what follows. */
  lemma SpaceStep(item: string, t: string)
    requires item != ""
    ensures var u := Space(item, " ") + t; var v := u[|item|..];
      |item| <= |u| && u[..|item|] == item && v == [' '] + t && v[..1] == " " && v[1..] == t
  {
    SpaceParts(item, " ", t);
    var v := Space(item, " ") + t;
    assert v[|item|..] == [' '] + t;
  }

  // ---------------------------------------------------------------------------
  // The date stage

  lemma DateOptionFails(u: string, len: nat)
    requires TextOk(u) && !DateHead(u, len)
    ensures DateOption(u, len).None?
  {
    if len < |u| && IsDateToken(u, len) && u[len] == ':' {
      var v := u[len + 1..];
      assert v == [];
    }
  }

  /** The choices the date stage makes on a written-out line. */
  function DateChoice(date: string, line: string): DateScan {
    if date == "" then DateScan(0, 0, |line|) else DateScan(|date|, 1, |line|)
  }

  /** A date, its colon and one space in front of text: the date alternative takes
      exactly that space. */
  lemma DateOptionCanon(date: string, line: string)
    requires IsDate(date) && TextOk(line) && (IsWhitespace(line[0]) ==> |line| == 1)
    ensures DateOption(DateText(date, line), |date|) == Some(DateScan(|date|, 1, |line|))
  {
    var u := DateText(date, line);
    var len := |date|;
    RestText(line);
    DateParts(date, line);
    assert IsDateToken(u, len) by {
      DateTokenExtend(u, len);
    }
    var v := u[len + 1..];
    assert v == [' '] + line;
    SpaceGap(line);
    DateOptionIs(u, len, v, |line|);
  }

  /** The gap of one space in front of text: `\s*` gives back any second space. */
  lemma SpaceGap(t: string)
    requires Lead(t) && Rest(t) == Some(|t|)
    ensures DateGap([' '] + t, WsRun([' '] + t)) == Some((1, |t|))
  {
    var v := [' '] + t;
    SpaceRun(t);
    if WsRun(v) == 2 {
      assert Rest(v[2..]).None?;
    }
  }

  lemma DateOptionIs(u: string, len: nat, v: string, n: nat)
    requires len < |u| && IsDateToken(u, len) && u[len] == ':' && v == u[len + 1..]
    requires DateGap(v, WsRun(v)) == Some((1, n))
    ensures DateOption(u, len) == Some(DateScan(len, 1, n))
  {
  }

  /** A date of `len` characters at the start of a line is one there. */
  lemma DateTokenExtend(u: string, len: nat)
    requires len <= |u| && IsDateToken(u[..len], len)
    ensures IsDateToken(u, len)
  {
    var p := u[..len];
    assert forall i :: 0 <= i < len ==> p[i] == u[i];
  }

  lemma DateCanon(date: string, line: string)
    requires DateOk(date, line)
    ensures DateStage(DateText(date, line)) == Some(DateChoice(date, line))
  {
    var u := DateText(date, line);
    if date == "" {
      RestText(line);
      assert u == line;
      DateOptionFails(u, 10);
      DateOptionFails(u, 5);
    } else {
      DateOptionCanon(date, line);
      if |date| == 5 {
        DateParts(date, line);
        assert u[2] == date[2];
      }
    }
  }

  lemma DateLead(date: string, line: string)
    requires DateOk(date, line)
    ensures Lead(DateText(date, line))
  {
    if date != "" {
      DateParts(date, line);
      assert DateText(date, line)[0] == date[0];
    }
  }

  /** The gap `lineToString` writes between two groups. */
  function Gap(item: string): string {
    if item == "" then "" else " "
  }

  lemma DateLayoutCanon(date: string, line: string)
    requires DateOk(date, line)
    ensures var u := DateText(date, line); var d := DateChoice(date, line);
      DateFits(u, d)
      && DateLayout(u, d) == Layout(LineStructure("", "", "", date, line), "", "", Gap(date), "")
  {
    if date != "" {
      DateParts(date, line);
      SpaceRun(line);
    }
  }

  // ---------------------------------------------------------------------------
  // The checkbox stage

  lemma BoxOptionFails(u: string, len: nat)
    requires TextOk(u) && !BoxHead(u, len)
    ensures BoxOption(u, len).None?
  {
    if IsBox(u, len) {
      var v := u[len..];
      if |v| > 0 {
        assert v[0] == u[len];
      }
      if WsRun(v) > 0 {
        assert WsRun(v) == 1 && v[1..] == [];
      }
    }
  }

  function BoxChoice(checkbox: string, date: string, line: string): BoxScan {
    BoxScan(|checkbox|, |Gap(checkbox)|, DateChoice(date, line))
  }

  /** A checkbox and one space in front of what the date stage reads as `d`. */
  lemma BoxOptionCanon(checkbox: string, t: string, d: DateScan)
    requires IsCheckbox(checkbox) && Lead(t) && DateStage(t) == Some(d)
    ensures BoxOption(Space(checkbox, " ") + t, |checkbox|) == Some(BoxScan(|checkbox|, 1, d))
  {
    var u := Space(checkbox, " ") + t;
    var len := |checkbox|;
    SpaceStep(checkbox, t);
    BoxExtend(u, len);
    var v := u[len..];
    SpaceRun(t);
    if WsRun(v) == 2 {
      assert DateStage(v[2..]).None?;
    }
    assert BoxGap(v, 1) == Some((1, d));
  }

  lemma BoxExtend(u: string, len: nat)
    requires len <= |u| && IsBox(u[..len], len)
    ensures IsBox(u, len)
  {
    var p := u[..len];
    assert forall i :: 0 <= i < len ==> p[i] == u[i];
  }

  /** Only the alternative of the checkbox's own length can match it. */
  lemma BoxShort(u: string)
    requires |u| >= 3 && u[2] == ' '
    ensures BoxOption(u, 3).None?
  {
  }

  /** The checkbox stage when both checkbox alternatives fail. */
  lemma BoxSkip(u: string, d: DateScan)
    requires BoxOption(u, 3).None? && BoxOption(u, 2).None? && DateStage(u) == Some(d)
    ensures CheckboxStage(u) == Some(BoxScan(0, 0, d))
  {
  }

  /** Text that does not start with `[` holds no checkbox. */
  lemma NoBox(u: string)
    requires |u| > 0 && u[0] != '['
    ensures BoxOption(u, 3).None? && BoxOption(u, 2).None?
  {
  }

  lemma BoxCanon(checkbox: string, date: string, line: string)
    requires BoxOk(checkbox, date, line)
    ensures CheckboxStage(BoxText(checkbox, date, line)) == Some(BoxChoice(checkbox, date, line))
  {
    var t := DateText(date, line);
    var d := DateChoice(date, line);
    DateCanon(date, line);
    DateLead(date, line);
    var u := BoxText(checkbox, date, line);
    if checkbox == "" {
      assert u == t;
      if date == "" {
        BoxOptionFails(u, 3);
        BoxOptionFails(u, 2);
      } else {
        DateParts(date, line);
        assert u[0] == date[0];
        NoBox(u);
      }
      BoxSkip(u, d);
    } else {
      BoxOptionCanon(checkbox, t, d);
      if |checkbox| == 2 {
        SpaceStep(checkbox, t);
        assert u[2] == u[2..][0];
        BoxShort(u);
      }
    }
  }

  lemma BoxLead(checkbox: string, date: string, line: string)
    requires BoxOk(checkbox, date, line)
    ensures Lead(BoxText(checkbox, date, line))
  {
    DateLead(date, line);
    if checkbox != "" {
      SpaceStep(checkbox, DateText(date, line));
      assert BoxText(checkbox, date, line)[0] == checkbox[0];
    }
  }

  lemma BoxLayoutCanon(checkbox: string, date: string, line: string)
    requires DateOk(date, line)
    ensures var u := BoxText(checkbox, date, line); var b := BoxChoice(checkbox, date, line);
      BoxFits(u, b)
      && BoxLayout(u, b)
        == Layout(LineStructure("", "", checkbox, date, line), "", Gap(checkbox), Gap(date), "")
  {
    var t := DateText(date, line);
    var d := DateChoice(date, line);
    DateLayoutCanon(date, line);
    var l := DateLayout(t, d);
    assert l == Layout(LineStructure("", "", "", date, line), "", "", Gap(date), "");
    var u := BoxText(checkbox, date, line);
    var b := BoxChoice(checkbox, date, line);
    if checkbox != "" {
      assert u == Space(checkbox, " ") + t;
      assert b == BoxScan(|checkbox|, 1, d);
      BoxLayoutStep(checkbox, t, d);
    } else {
      assert u == t;
      assert b == BoxScan(0, 0, d);
    }
  }

  /** The layout of a checkbox and one space in front of text laid out as `d`. */
  lemma BoxLayoutStep(checkbox: string, t: string, d: DateScan)
    requires checkbox != "" && DateFits(t, d)
    ensures var u := Space(checkbox, " ") + t; var b := BoxScan(|checkbox|, 1, d);
      var l := DateLayout(t, d);
      BoxFits(u, b)
      && BoxLayout(u, b) == l.(fields := l.fields.(checkbox := checkbox), boxGap := " ")
  {
    SpaceStep(checkbox, t);
  }

  // ---------------------------------------------------------------------------
  // The list-marker stage

  /** A list marker at the start of a line is the longest one there. */
  lemma MarkerLenStart(u: string, k: nat)
    requires k <= |u| && IsListMarker(u[..k])
    ensures MarkerLen(u) == k
  {
    var p := u[..k];
    if !(p[0] == '*' || p[0] == '-') {
      assert p[..k - 1] == u[..k - 1];
      DigitRunIs(u, k - 1);
    }
  }

  lemma MarkerOptionFails(u: string)
    requires TextOk(u) && !MarkerHead(u)
    ensures MarkerOption(u).None?
  {
    if MarkerLen(u) > 0 {
      var v := u[MarkerLen(u)..];
      assert v == [];
    }
  }

  /** The digits a date starts with are followed by `-`, not by `.`. */
  lemma DateNoMarker(u: string, len: nat)
    requires IsDateToken(u, len)
    ensures MarkerLen(u) == 0
  {
    var n := if len == 10 then 4 else 2;
    assert AllDigits(u[..n]);
    DigitRunIs(u, n);
  }

  /** A checkbox or a date does not start with a list marker. */
  lemma BoxNoMarker(checkbox: string, date: string, line: string)
    requires BoxOk(checkbox, date, line) && (checkbox != "" || date != "")
    ensures MarkerLen(BoxText(checkbox, date, line)) == 0
  {
    var u := BoxText(checkbox, date, line);
    if checkbox != "" {
      SpaceStep(checkbox, DateText(date, line));
      assert u[0] == '[';
      DigitRunIs(u, 0);
    } else {
      DateParts(date, line);
      assert u == DateText(date, line);
      DateTokenExtend(u, |date|);
      DateNoMarker(u, |date|);
    }
  }

  function MarkerChoice(listMarker: string, checkbox: string, date: string, line: string): MarkerScan {
    MarkerScan(|listMarker|, |Gap(listMarker)|, BoxChoice(checkbox, date, line))
  }

  /** A list marker and one space in front of what the checkbox stage reads as `b`. */
  lemma MarkerOptionCanon(listMarker: string, t: string, b: BoxScan)
    requires IsListMarker(listMarker) && Lead(t) && CheckboxStage(t) == Some(b)
    ensures MarkerOption(Space(listMarker, " ") + t) == Some(MarkerScan(|listMarker|, 1, b))
  {
    var u := Space(listMarker, " ") + t;
    var len := |listMarker|;
    SpaceStep(listMarker, t);
    MarkerLenStart(u, len);
    var v := u[len..];
    SpaceRun(t);
    if WsRun(v) == 2 {
      assert CheckboxStage(v[2..]).None?;
    }
    assert MarkerGap(v, 1) == Some((1, b));
  }

  lemma MarkerCanon(listMarker: string, checkbox: string, date: string, line: string)
    requires MarkerOk(listMarker, checkbox, date, line)
    ensures MarkerStage(MarkerText(listMarker, checkbox, date, line))
      == Some(MarkerChoice(listMarker, checkbox, date, line))
  {
    var t := BoxText(checkbox, date, line);
    if listMarker == "" {
      assert MarkerText(listMarker, checkbox, date, line) == t;
      MarkerCanonBare(checkbox, date, line);
    } else {
      BoxCanon(checkbox, date, line);
      BoxLead(checkbox, date, line);
      MarkerOptionCanon(listMarker, t, BoxChoice(checkbox, date, line));
    }
  }

  /** Without a list marker the checkbox stage reads the line. */
  lemma MarkerCanonBare(checkbox: string, date: string, line: string)
    requires MarkerOk("", checkbox, date, line)
    ensures MarkerStage(BoxText(checkbox, date, line)) == Some(MarkerScan(0, 0, BoxChoice(checkbox, date, line)))
  {
    var u := BoxText(checkbox, date, line);
    BoxCanon(checkbox, date, line);
    BoxLead(checkbox, date, line);
    if checkbox == "" && date == "" {
      assert u == line;
      MarkerOptionFails(u);
    } else {
      BoxNoMarker(checkbox, date, line);
    }
  }

  lemma MarkerLead(listMarker: string, checkbox: string, date: string, line: string)
    requires MarkerOk(listMarker, checkbox, date, line)
    ensures Lead(MarkerText(listMarker, checkbox, date, line))
  {
    BoxLead(checkbox, date, line);
    if listMarker != "" {
      SpaceStep(listMarker, BoxText(checkbox, date, line));
      assert MarkerText(listMarker, checkbox, date, line)[0] == listMarker[0];
    }
  }

  /** The layout of a list marker and one space in front of text laid out as `l`. */
  lemma MarkerLayoutStep(listMarker: string, t: string, b: BoxScan)
    requires listMarker != "" && BoxFits(t, b)
    ensures var u := Space(listMarker, " ") + t; var m := MarkerScan(|listMarker|, 1, b);
      var l := BoxLayout(t, b);
      MarkerFits(u, m)
      && MarkerLayout(u, m) == l.(fields := l.fields.(listMarker := listMarker), markerGap := " ")
  {
    SpaceStep(listMarker, t);
  }

  lemma MarkerLayoutCanon(listMarker: string, checkbox: string, date: string, line: string)
    requires BoxOk(checkbox, date, line)
    ensures var u := MarkerText(listMarker, checkbox, date, line);
      var m := MarkerChoice(listMarker, checkbox, date, line);
      MarkerFits(u, m)
      && MarkerLayout(u, m) == Layout(LineStructure("", listMarker, checkbox, date, line),
        Gap(listMarker), Gap(checkbox), Gap(date), "")
  {
    var t := BoxText(checkbox, date, line);
    var b := BoxChoice(checkbox, date, line);
    BoxLayoutCanon(checkbox, date, line);
    var l := BoxLayout(t, b);
    assert l == Layout(LineStructure("", "", checkbox, date, line), "", Gap(checkbox), Gap(date), "");
    MarkerLayoutOf(listMarker, t, b, l);
  }

  /** The list marker and its gap in front of text whose layout the checkbox stage
      gives as `l`. */
  lemma MarkerLayoutOf(listMarker: string, t: string, b: BoxScan, l: Layout)
    requires BoxFits(t, b) && BoxLayout(t, b) == l
    ensures var u := Space(listMarker, " ") + t; var m := MarkerScan(|listMarker|, |Gap(listMarker)|, b);
      MarkerFits(u, m)
      && MarkerLayout(u, m) == l.(fields := l.fields.(listMarker := listMarker), markerGap := Gap(listMarker))
  {
    if listMarker != "" {
      MarkerLayoutStep(listMarker, t, b);
    } else {
      assert Space(listMarker, " ") + t == t;
    }
  }

  // ---------------------------------------------------------------------------
  // The whole line

  function LineChoice(f: LineStructure): LineScan {
    LineScan(|f.indentation|, MarkerChoice(f.listMarker, f.checkbox, f.date, f.line))
  }

  /** The layout `lineToString` writes: one space after each group that is there and
      nothing after the text. */
  function CanonLayout(f: LineStructure): Layout {
    Layout(f, Gap(f.listMarker), Gap(f.checkbox), Gap(f.date), "")
  }

  /** White-space indentation in front of lead text that the list-marker stage reads as
      `m`. */
  lemma IndentCanon(indentation: string, u: string, m: MarkerScan)
    requires AllWhitespace(indentation) && Lead(u) && MarkerStage(u) == Some(m)
    ensures Scan(indentation + u) == Some(LineScan(|indentation|, m))
  {
    var s := indentation + u;
    var k := |indentation|;
    assert s[k..] == u;
    if IsWhitespace(u[0]) {
      IndentWsRun(indentation, u, k + 1);
      assert s[k + 1..] == [];
      IndentSearchSkip(s, k, m);
    } else {
      IndentWsRun(indentation, u, k);
      IndentSearchAt(s, k, m);
    }
  }

  /** The white space at the start of `indentation + u`: the indentation, and the first
      character of `u` when that is white space, which is then all of `u`. */
  lemma IndentWsRun(indentation: string, u: string, n: nat)
    requires AllWhitespace(indentation) && Lead(u)
    requires n == if IsWhitespace(u[0]) then |indentation| + 1 else |indentation|
    ensures WsRun(indentation + u) == n
  {
    var s := indentation + u;
    var k := |indentation|;
    assert s[k] == u[0];
    if IsWhitespace(u[0]) {
      assert s[..k + 1] == indentation + [u[0]];
    } else {
      assert s[..k] == indentation;
    }
    WsRunIs(s, n);
  }

  lemma IndentSearchAt(s: string, k: nat, m: MarkerScan)
    requires k <= |s| && MarkerStage(s[k..]) == Some(m)
    ensures IndentSearch(s, k) == Some(LineScan(k, m))
  {
  }

  /** Indentation that takes one character too many gives it back. */
  lemma IndentSearchSkip(s: string, k: nat, m: MarkerScan)
    requires k < |s| && MarkerStage(s[k + 1..]).None? && MarkerStage(s[k..]) == Some(m)
    ensures IndentSearch(s, k + 1) == Some(LineScan(k, m))
  {
  }

  lemma LineCanon(f: LineStructure)
    requires WellFormed(f)
    ensures Scan(LineToString(f)) == Some(LineChoice(f))
  {
    MarkerCanon(f.listMarker, f.checkbox, f.date, f.line);
    MarkerLead(f.listMarker, f.checkbox, f.date, f.line);
    IndentCanon(f.indentation, MarkerText(f.listMarker, f.checkbox, f.date, f.line),
      MarkerChoice(f.listMarker, f.checkbox, f.date, f.line));
  }

  lemma LineLayoutCanon(f: LineStructure)
    requires WellFormed(f)
    ensures LineFits(LineToString(f), LineChoice(f))
      && LineLayout(LineToString(f), LineChoice(f)) == CanonLayout(f)
  {
    var s := LineToString(f);
    var k := |f.indentation|;
    MarkerLayoutCanon(f.listMarker, f.checkbox, f.date, f.line);
    assert s[..k] == f.indentation && s[k..] == MarkerText(f.listMarker, f.checkbox, f.date, f.line);
  }

  /** `lineToString` writes exactly the pieces of its layout. */
  lemma DateTextAssembles(f: LineStructure)
    ensures DateText(f.date, f.line) == DatePart(CanonLayout(f))
  {
    if f.date != "" {
      assert DateText(f.date, f.line) == f.date + ":" + " " + f.line + "";
    } else {
      assert DateText(f.date, f.line) == f.date + "" + "" + f.line + "";
    }
  }

  lemma BoxTextAssembles(f: LineStructure)
    ensures BoxText(f.checkbox, f.date, f.line) == BoxPart(CanonLayout(f))
  {
    DateTextAssembles(f);
    assert BoxText(f.checkbox, f.date, f.line)
      == f.checkbox + Gap(f.checkbox) + DateText(f.date, f.line);
  }

  lemma LineToStringAssembles(f: LineStructure)
    ensures LineToString(f) == Assemble(CanonLayout(f))
  {
    BoxTextAssembles(f);
    assert MarkerText(f.listMarker, f.checkbox, f.date, f.line)
      == f.listMarker + Gap(f.listMarker) + BoxText(f.checkbox, f.date, f.line);
  }

  // ---------------------------------------------------------------------------
  // Round trips

  /** A well-formed structure comes back from its line unchanged. */
  lemma ParseLineToString(f: LineStructure)
    requires WellFormed(f)
    ensures ParseLine(LineToString(f)) == f
  {
    LineCanon(f);
    LineLayoutCanon(f);
  }

  /** Parsing is idempotent through `lineToString`: the structure of a line and the
      structure of its written-out form are the same. */
  lemma ParseLineIdempotent(s: string)
    ensures ParseLine(LineToString(ParseLine(s))) == ParseLine(s)
  {
    if Scan(s).Some? {
      ParseLineWellFormed(s);
      ParseLineToString(ParseLine(s));
    } else {
      assert LineToString(ParseLine(s)) == s;
    }
  }

  /** A line written out by `lineToString` from a well-formed structure is written out
      again unchanged: single spaces between the groups and nothing after the text. */
  lemma LineToStringFixed(f: LineStructure)
    requires WellFormed(f)
    ensures LineToString(ParseLine(LineToString(f))) == LineToString(f)
  {
    ParseLineToString(f);
  }

  /** A matched line is its groups, the white space between them and its tail; writing
      it out replaces that white space by single spaces and drops the tail. */
  lemma ParseLineCollapses(s: string)
    requires Scan(s).Some?
    ensures var r := LineLayout(s, Scan(s).value);
      && s == Assemble(r)
      && ParseLine(s) == r.fields
      && LineToString(ParseLine(s)) == Assemble(CanonLayout(r.fields))
      && AllWhitespace(r.markerGap) && AllWhitespace(r.boxGap) && AllWhitespace(r.dateGap)
      && TailOk(r.tail)
  {
    var l := Scan(s).value;
    LineSplit(s, l);
    LineSound(s, l);
    LineToStringAssembles(ParseLine(s));
  }
}
