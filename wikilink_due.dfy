/**
 * The wikilink due date of `parseAttributes`: a text followed by two wikilink dates,
 * in the classic syntax and with no explicit due attribute, keeps only the text, and
 * the later of the two dates becomes the due date.
 */
module WikilinkDue {
  import opened Wrappers
  import opened Strings
  import opened Dicts
  import opened TodoItems
  import opened AttributeTokens
  import opened AttributeParsing
  import opened AttributeRoundTrip

  /** `text [[d1]] [[d2]]` parses to `text`, and the due attribute holds the later
      date; both wikilinks are gone from the text. */
  lemma LaterWikilinkWins(cfg: Option<Settings>, text: string, d1: string, d2: string)
    requires !Dataview(cfg) && PlainText(text) && IsIsoDate(d1) && IsIsoDate(d2)
    ensures var r := ParseAttributesSpec(cfg, text + " " + WikilinkText(d1) + " " + WikilinkText(d2));
      && r.textWithoutAttributes == text
      && r.attributes == [(DueKey(cfg), Str(if LexLess(d1, d2) then d2 else d1))]
  {
    var l1, l2 := WikilinkText(d1), WikilinkText(d2);
    var s := text + " " + l1 + " " + l2;
    var later := if LexLess(d1, d2) then d2 else d1;
    var sorted := SortDesc([d1, d2]);
    NoMatches(cfg, text, d1, d2, s);
    TwoLinkDates(text, d1, d2, s);
    LaterFirst(d1, d2);
    TwoLinksRemoved(text, d1, d2, sorted);
    TrimTwoSpaces(text);
    ParsedLinks(cfg, s, [d1, d2], text + " " + " ");
  }

  /** The text and its wikilinks hold no attribute. */
  lemma NoMatches(cfg: Option<Settings>, text: string, d1: string, d2: string, s: string)
    requires !Dataview(cfg) && PlainText(text) && IsIsoDate(d1) && IsIsoDate(d2)
    requires s == text + " " + WikilinkText(d1) + " " + WikilinkText(d2)
    ensures Matches(cfg, s) == []
  {
    NoAtInLinks(text, d1, d2, s);
    SkipPlain(cfg, s, 0, |s|);
  }

  /** Trimming the text and two spaces gives the text back. */
  lemma TrimTwoSpaces(text: string)
    requires PlainText(text)
    ensures Trim(text + " " + " ") == text
  {
    var t := text + " " + " ";
    assert t[..|text|] == text;
    TrimPadded(text, t);
  }

  /** `parseAttributes` of a text with no attribute match and some wikilink dates: the
      greatest date is the due date, and the text is what removing the wikilinks
      leaves. */
  lemma ParsedLinks(cfg: Option<Settings>, s: string, ds: seq<string>, t: string)
    requires Matches(cfg, s) == [] && WikilinkDates(s) == ds && |ds| > 0
    requires WithoutLinks(s, SortDesc(ds)) == t
    ensures ParseAttributesSpec(cfg, s).textWithoutAttributes == Trim(t)
    ensures ParseAttributesSpec(cfg, s).attributes == [(DueKey(cfg), Str(SortDesc(ds)[0]))]
  {
    var ms := Matches(cfg, s);
    var ps := Pairs(cfg, ms);
    assert ps == [];
    assert AttrsAfter(ps) == [];
    assert TextAfter(s, ms, ps) == s;
    var due := DueKey(cfg);
    var none: Attributes := [];
    assert Find(none, due) == None;
    assert Get(none, due) == None;
    var sorted := SortDesc(ds);
    assert |sorted| == |ds| by {
      assert |multiset(sorted)| == |multiset(ds)|;
    }
    assert Set([], due, Str(sorted[0])) == [] + [(due, Str(sorted[0]))];
  }

  /** Characters of a wikilink date: none is `@` or `[`. */
  lemma LinkChars(d: string)
    requires IsIsoDate(d)
    ensures var l := WikilinkText(d);
      |l| == 14 && l[2..12] == d && WikilinkAt(l, 0)
      && (forall j :: 0 <= j < 14 ==> l[j] != '@')
      && (forall j :: 2 <= j < 14 ==> l[j] != '[')
  {
    var l := WikilinkText(d);
    assert l[2..12] == d;
    forall j | 2 <= j < 12
      ensures l[j] != '[' && l[j] != '@'
    {
      assert l[j] == d[j - 2];
    }
  }

  /** The text and its two wikilinks hold no `@`. */
  lemma NoAtInLinks(text: string, d1: string, d2: string, s: string)
    requires PlainText(text) && IsIsoDate(d1) && IsIsoDate(d2)
    requires s == text + " " + WikilinkText(d1) + " " + WikilinkText(d2)
    ensures forall j :: 0 <= j < |s| ==> s[j] != '@'
  {
    LinkChars(d1);
    LinkChars(d2);
    var p1 := |text| + 1;
    var p2 := p1 + 15;
    forall j | 0 <= j < |s|
      ensures s[j] != '@'
    {
      if j < |text| {
        assert s[j] == text[j];
      } else if p1 <= j < p1 + 14 {
        assert s[j] == WikilinkText(d1)[j - p1];
      } else if p2 <= j {
        assert s[j] == WikilinkText(d2)[j - p2];
      }
    }
  }

  /** A wikilink laid out at `p`. */
  lemma LinkAt(s: string, p: nat, d: string)
    requires IsIsoDate(d) && p + 14 <= |s| && s[p..p + 14] == WikilinkText(d)
    ensures WikilinkAt(s, p) && s[p + 2..p + 12] == d
  {
    LinkChars(d);
    var l := WikilinkText(d);
    SliceOfSlice(s, p, p + 14, 2, 12);
    assert s[p] == l[0] && s[p + 1] == l[1] && s[p + 12] == l[12] && s[p + 13] == l[13];
  }

  /** Positions that start no wikilink are passed over. */
  lemma {:induction false} SkipNoLink(s: string, i: nat, p: nat)
    requires i <= p <= |s| && forall j :: i <= j < p ==> !WikilinkAt(s, j)
    ensures WikilinkDatesFrom(s, i) == WikilinkDatesFrom(s, p)
    decreases p - i
  {
    if i < p {
      SkipNoLink(s, i + 1, p);
    }
  }

  /** The two dates are found, in text order. */
  lemma TwoLinkDates(text: string, d1: string, d2: string, s: string)
    requires PlainText(text) && IsIsoDate(d1) && IsIsoDate(d2)
    requires s == text + " " + WikilinkText(d1) + " " + WikilinkText(d2)
    ensures WikilinkDates(s) == [d1, d2]
  {
    var p1 := |text| + 1;
    LinkChars(d1);
    LinkChars(d2);
    assert s[..p1] == text + " ";
    assert s[p1..p1 + 14] == WikilinkText(d1);
    assert s[p1 + 14] == ' ';
    assert s[p1 + 15..] == WikilinkText(d2);
    NoLinkInText(text, s);
    SkipNoLink(s, 0, p1);
    LinksFrom(s, p1, d1, d2);
  }

  /** Two wikilinks with a space between them, at the end of the text, give their two
      dates in order. */
  lemma LinksFrom(s: string, p: nat, d1: string, d2: string)
    requires IsIsoDate(d1) && IsIsoDate(d2) && p + 29 == |s|
    requires s[p..p + 14] == WikilinkText(d1) && s[p + 14] == ' ' && s[p + 15..] == WikilinkText(d2)
    ensures WikilinkDatesFrom(s, p) == [d1, d2]
  {
    LinkAt(s, p, d1);
    LinkGap(s, p + 14);
    assert s[p + 15..p + 29] == s[p + 15..];
    LinkAt(s, p + 15, d2);
    assert WikilinkDatesFrom(s, p + 29) == [];
    assert WikilinkDatesFrom(s, p + 15) == [d2];
    assert WikilinkDatesFrom(s, p + 14) == [d2];
    assert WikilinkDatesFrom(s, p) == [d1] + [d2];
  }

  /** No wikilink starts in the text or at the space after it. */
  lemma NoLinkInText(text: string, s: string)
    requires NoDoubleBracket(text, 0) && |s| > |text| && s[..|text| + 1] == text + " "
    ensures forall j :: 0 <= j < |text| + 1 ==> !WikilinkAt(s, j)
  {
    forall j | 0 <= j < |text| + 1
      ensures !WikilinkAt(s, j)
    {
      assert s[j] == s[..|text| + 1][j];
      if j + 1 < |text| {
        assert s[j + 1] == s[..|text| + 1][j + 1];
        assert s[j] == text[j] && s[j + 1] == text[j + 1];
      } else if j + 1 == |text| {
        assert s[j + 1] == s[..|text| + 1][j + 1];
      }
    }
  }

  /** No wikilink starts at a space. */
  lemma LinkGap(s: string, p: nat)
    requires p < |s| && s[p] == ' '
    ensures !WikilinkAt(s, p)
  {
  }

  /** The descending sort of two dates puts the later one first. */
  lemma LaterFirst(d1: string, d2: string)
    ensures SortDesc([d1, d2]) == [d1, d2] || SortDesc([d1, d2]) == [d2, d1]
    ensures SortDesc([d1, d2])[0] == if LexLess(d1, d2) then d2 else d1
  {
    assert [d1, d2][1..] == [d2] && [d2][1..] == [];
    assert SortDesc([d2]) == [d2];
    var r := SortDesc([d1, d2]);
    assert r == InsertDesc(d1, [d2]);
    if LexLess(d2, d1) {
      assert r == [d1, d2];
      LexAsymmetric(d2, d1);
    } else {
      assert r == [d2] + InsertDesc(d1, []);
      if !LexLess(d1, d2) {
        LexTotal(d1, d2);
      }
    }
  }

  /** Removing the two wikilinks, in either order, leaves the text and two spaces. */
  lemma TwoLinksRemoved(text: string, d1: string, d2: string, sorted: seq<string>)
    requires PlainText(text) && IsIsoDate(d1) && IsIsoDate(d2)
    requires sorted == [d1, d2] || sorted == [d2, d1]
    ensures WithoutLinks(text + " " + WikilinkText(d1) + " " + WikilinkText(d2), sorted) == text + " " + " "
  {
    var s := text + " " + WikilinkText(d1) + " " + WikilinkText(d2);
    assert sorted[..|sorted| - 1] == [sorted[0]];
    assert [sorted[0]][..0] == [];
    assert WithoutLinks(s, [sorted[0]]) == ReplaceFirst(s, WikilinkText(sorted[0]), "");
    assert WithoutLinks(s, sorted) == ReplaceFirst(ReplaceFirst(s, WikilinkText(sorted[0]), ""), WikilinkText(sorted[1]), "");
    if sorted == [d1, d2] || d1 == d2 {
      InOrderRemoved(text, d1, d2);
    } else {
      LaterRemovedFirst(text, d1, d2);
    }
  }

  /** Removing the first wikilink, then the second. */
  lemma InOrderRemoved(text: string, d1: string, d2: string)
    requires PlainText(text) && IsIsoDate(d1) && IsIsoDate(d2)
    ensures var l1, l2 := WikilinkText(d1), WikilinkText(d2);
      ReplaceFirst(ReplaceFirst(text + " " + l1 + " " + l2, l1, ""), l2, "") == text + " " + " "
  {
    FirstLinkRemoved(text, d1, d2);
    SecondLinkRemoved(text, d2);
  }

  /** Removing the first wikilink leaves the text, two spaces and the second one. */
  lemma FirstLinkRemoved(text: string, d1: string, d2: string)
    requires PlainText(text) && IsIsoDate(d1)
    ensures var l1, l2 := WikilinkText(d1), WikilinkText(d2);
      ReplaceFirst(text + " " + l1 + " " + l2, l1, "") == text + " " + " " + l2
  {
    var l1, l2 := WikilinkText(d1), WikilinkText(d2);
    var x := text + " ";
    LinkChars(d1);
    TextSpaceNoLink(text);
    RemoveLinkAt(x, l1, " " + l2);
    assert x + l1 + (" " + l2) == text + " " + l1 + " " + l2;
    assert x + (" " + l2) == text + " " + " " + l2;
  }

  /** Removing the wikilink after the text and two spaces leaves the text and the
      spaces. */
  lemma SecondLinkRemoved(text: string, d2: string)
    requires PlainText(text) && IsIsoDate(d2)
    ensures ReplaceFirst(text + " " + " " + WikilinkText(d2), WikilinkText(d2), "") == text + " " + " "
  {
    var l2 := WikilinkText(d2);
    var x := text + " ";
    LinkChars(d2);
    TextSpaceNoLink(text);
    TextSpaceNoLink(x);
    RemoveLinkAt(x + " ", l2, "");
    assert x + " " + l2 + "" == text + " " + " " + l2;
    assert x + " " + "" == text + " " + " ";
  }

  /** Removing the second wikilink, then the first, when their dates differ. */
  lemma LaterRemovedFirst(text: string, d1: string, d2: string)
    requires PlainText(text) && IsIsoDate(d1) && IsIsoDate(d2) && d1 != d2
    ensures var l1, l2 := WikilinkText(d1), WikilinkText(d2);
      ReplaceFirst(ReplaceFirst(text + " " + l1 + " " + l2, l2, ""), l1, "") == text + " " + " "
  {
    var l1 := WikilinkText(d1);
    var x := text + " ";
    LinkChars(d1);
    TextSpaceNoLink(text);
    RemoveLaterLink(x, d1, d2);
    RemoveLinkAt(x, l1, " ");
  }

  /** Text without `[[`, followed by a space, has no `[[` and does not end in `[`. */
  lemma TextSpaceNoLink(text: string)
    requires NoDoubleBracket(text, 0)
    ensures var x := text + " "; NoDoubleBracket(x, 0) && x[|x| - 1] != '['
  {
    var x := text + " ";
    forall j | 0 <= j && j + 1 < |x|
      ensures x[j] != '[' || x[j + 1] != '['
    {
      if j + 1 < |text| {
        assert x[j] == text[j] && x[j + 1] == text[j + 1];
      }
    }
  }

  /** An occurrence with none before it is the one `indexOf` finds. */
  lemma IndexOfIs(s: string, pat: string, p: nat)
    requires OccursAt(s, pat, p) && forall q: nat :: q < p ==> !OccursAt(s, pat, q)
    ensures IndexOf(s, pat) == Some(p)
  {
  }

  /** The first occurrence of a wikilink after text with no `[[` is its own place. */
  lemma RemoveLinkAt(x: string, l: string, y: string)
    requires |l| >= 2 && l[0] == '[' && l[1] == '['
    requires NoDoubleBracket(x, 0) && (|x| > 0 ==> x[|x| - 1] != '[')
    ensures ReplaceFirst(x + l + y, l, "") == x + y
  {
    var b := x + l + y;
    forall q: nat | q < |x|
      ensures !OccursAt(b, l, q)
    {
      if q + |l| <= |b| {
        assert b[q..q + |l|][0] == b[q] == x[q];
        if q + 1 < |x| {
          assert b[q..q + |l|][1] == b[q + 1] == x[q + 1];
        }
      }
    }
    assert b[|x|..|x| + |l|] == l;
    IndexOfIs(b, l, |x|);
    assert b[..|x|] == x && b[|x| + |l|..] == y;
    assert ReplaceFirst(b, l, "") == x + "" + y;
    assert x + "" + y == x + y;
  }

  /** With two different dates, the second wikilink is found at its own place, past
      the first one. */
  lemma RemoveLaterLink(x: string, d1: string, d2: string)
    requires IsIsoDate(d1) && IsIsoDate(d2) && d1 != d2
    requires NoDoubleBracket(x, 0) && (|x| > 0 ==> x[|x| - 1] != '[')
    ensures var l1, l2 := WikilinkText(d1), WikilinkText(d2);
      ReplaceFirst(x + l1 + " " + l2, l2, "") == x + l1 + " "
  {
    var l1, l2 := WikilinkText(d1), WikilinkText(d2);
    LinkChars(d1);
    LinkChars(d2);
    var b := x + l1 + " " + l2;
    var p := |x| + 15;
    forall q: nat | q < p
      ensures !OccursAt(b, l2, q)
    {
      if q + 14 <= |b| {
        assert b[q..q + 14][0] == b[q] && b[q..q + 14][1] == b[q + 1];
        if q + 1 < |x| {
          assert b[q] == x[q] && b[q + 1] == x[q + 1];
        } else if q + 1 == |x| {
          assert b[q] == x[q];
        } else if q == |x| {
          assert b[q..q + 14] == l1;
          assert l1[2..12] != l2[2..12];
        } else if q < |x| + 14 {
          assert b[q] == l1[q - |x|];
        } else {
          assert b[q] == ' ';
        }
      }
    }
    assert b[p..p + 14] == l2;
    IndexOfIs(b, l2, p);
    assert b[..p] == x + l1 + " " && b[p + 14..] == "";
  }
}
