/**
 * `parseAttributes`, `attributesToString` and `convertPriorityAttributes` of
 * `LineOperations.ts`: the attribute dictionary taken out of the text of a line, and
 * put back into it.
 */
module AttributeParsing {
  import opened Wrappers
  import opened Strings
  import opened Dicts
  import opened TodoItems
  import opened AttributeTokens

  /** `IAttributesStructure` */
  datatype AttributesStructure = AttributesStructure(textWithoutAttributes: string, attributes: Attributes)

  /** No entry has the empty key. */
  predicate NoEmptyKey(d: Attributes) {
    forall i :: 0 <= i < |d| ==> d[i].0 != ""
  }

  /** The key and value `parseSingleAttribute` gives each match. */
  function Pairs(cfg: Option<Settings>, ms: seq<string>): (ps: seq<(string, AttrValue)>)
    ensures |ps| == |ms| && forall i :: 0 <= i < |ms| ==> ps[i] == ParseSingle(cfg, ms[i])
  {
    seq(|ms|, i requires 0 <= i < |ms| => ParseSingle(cfg, ms[i]))
  }

  /** The last pair whose key is `k`. */
  function LastIndex(ps: seq<(string, AttrValue)>, k: string): (r: Option<nat>)
    ensures r.Some? ==> r.value < |ps| && ps[r.value].0 == k
    ensures r.Some? ==> forall j :: r.value < j < |ps| ==> ps[j].0 != k
    ensures r.None? ==> forall j :: 0 <= j < |ps| ==> ps[j].0 != k
    decreases |ps|
  {
    if ps == [] then None
    else if ps[|ps| - 1].0 == k then Some(|ps| - 1)
    else LastIndex(ps[..|ps| - 1], k)
  }

  /** The value the last pair with key `k` gives it, if any. The empty key is never
      stored. */
  function LastValue(ps: seq<(string, AttrValue)>, k: string): Option<AttrValue> {
    if k == "" then None
    else match LastIndex(ps, k)
      case Some(i) => Some(ps[i].1)
      case None => None
  }

  /** The dictionary after the `forEach` has handled the pairs `ps` in order: an
      empty key is skipped, any other is assigned. */
  function AttrsAfter(ps: seq<(string, AttrValue)>): Attributes
    decreases |ps|
  {
    if ps == [] then []
    else
      var d := AttrsAfter(ps[..|ps| - 1]);
      var kv := ps[|ps| - 1];
      if kv.0 == "" then d else Set(d, kv.0, kv.1)
  }

  /** The text after the `forEach`: each match with a key has its first occurrence in
      the current text replaced by nothing. */
  function TextAfter(text: string, ms: seq<string>, ps: seq<(string, AttrValue)>): string
    requires |ms| == |ps|
    decreases |ms|
  {
    if ms == [] then text
    else
      var t := TextAfter(text, ms[..|ms| - 1], ps[..|ps| - 1]);
      if ps[|ps| - 1].0 == "" then t else ReplaceFirst(t, ms[|ms| - 1], "")
  }

  /** The text after the wikilink loop: the first occurrence of each date's wikilink,
      in the order given, replaced by nothing. */
  function WithoutLinks(t: string, ds: seq<string>): string
    decreases |ds|
  {
    if ds == [] then t
    else ReplaceFirst(WithoutLinks(t, ds[..|ds| - 1]), WikilinkText(ds[|ds| - 1]), "")
  }

  /** `!res[key]`: absent, `false` and `""` are falsy. */
  predicate Falsy(v: Option<AttrValue>) {
    v.None? || v == Some(Flag(false)) || v == Some(Str(""))
  }

  /** Descending order, as `b.date.localeCompare(a.date)` sorts dates. */
  predicate SortedDesc(ds: seq<string>) {
    forall i, j :: 0 <= i < j < |ds| ==> !LexLess(ds[i], ds[j])
  }

  function InsertDesc(x: string, ds: seq<string>): (r: seq<string>)
    ensures multiset(r) == multiset(ds) + multiset{x}
  {
    if ds == [] then [x]
    else if LexLess(ds[0], x) then [x] + ds
    else
      assert ds == [ds[0]] + ds[1..];
      [ds[0]] + InsertDesc(x, ds[1..])
  }

  /** The sort of `parseAttributes`, greatest date first. */
  function SortDesc(ds: seq<string>): (r: seq<string>)
    ensures multiset(r) == multiset(ds)
  {
    if ds == [] then []
    else
      assert ds == [ds[0]] + ds[1..];
      InsertDesc(ds[0], SortDesc(ds[1..]))
  }

  /** `parseAttributes`, as a function of its input. */
  function ParseAttributesSpec(cfg: Option<Settings>, text: string): AttributesStructure {
    var ms := Matches(cfg, text);
    var ps := Pairs(cfg, ms);
    var res := AttrsAfter(ps);
    var t := TextAfter(text, ms, ps);
    var ds := WikilinkDates(t);
    var due := DueKey(cfg);
    if |ds| > 0 && Falsy(Get(res, due)) then
      var sorted := SortDesc(ds);
      AttributesStructure(Trim(WithoutLinks(t, sorted)), Set(res, due, Str(sorted[0])))
    else
      AttributesStructure(Trim(WithoutLinks(t, ds)), res)
  }

  lemma SetNoEmpty(d: Attributes, k: string, v: AttrValue)
    requires NoEmptyKey(d) && k != ""
    ensures NoEmptyKey(Set(d, k, v))
  {
    SetShape(d, k, v);
  }

  lemma LastValueStep(ps: seq<(string, AttrValue)>, k: string)
    requires |ps| > 0
    ensures LastValue(ps, k) ==
      if k != "" && ps[|ps| - 1].0 == k then Some(ps[|ps| - 1].1) else LastValue(ps[..|ps| - 1], k)
  {
  }

  /** The dictionary the `forEach` builds holds, for every key, the value of the last
      match with that key, and nothing for a key no match has; the empty key is never
      stored and no key is stored twice. */
  lemma {:induction false} AttrsAfterGet(ps: seq<(string, AttrValue)>, k: string)
    ensures Valid(AttrsAfter(ps)) && NoEmptyKey(AttrsAfter(ps))
    ensures Get(AttrsAfter(ps), k) == LastValue(ps, k)
    decreases |ps|
  {
    if ps != [] {
      var p := ps[..|ps| - 1];
      var kv := ps[|ps| - 1];
      AttrsAfterGet(p, k);
      LastValueStep(ps, k);
      var d := AttrsAfter(p);
      if kv.0 != "" {
        SetGet(d, kv.0, kv.1, k);
        SetNoEmpty(d, kv.0, kv.1);
      } else if k == "" {
        FindNone(d, k);
      }
    }
  }

  /** Later matches overwrite earlier ones: after the `forEach`, `k` holds the value of
      the last match whose key is `k`, and is absent when no match has that key. */
  lemma LastMatchWins(ps: seq<(string, AttrValue)>, k: string, i: nat)
    requires k != "" && i < |ps| && ps[i].0 == k
    requires forall j :: i < j < |ps| ==> ps[j].0 != k
    ensures Get(AttrsAfter(ps), k) == Some(ps[i].1)
  {
    AttrsAfterGet(ps, k);
    LastIndexAt(ps, k, i);
  }

  /** The last pair with key `k` is the one that no later pair shares its key with. */
  lemma {:induction false} LastIndexAt(ps: seq<(string, AttrValue)>, k: string, i: nat)
    requires i < |ps| && ps[i].0 == k
    requires forall j :: i < j < |ps| ==> ps[j].0 != k
    ensures LastIndex(ps, k) == Some(i)
    decreases |ps|
  {
    if i < |ps| - 1 {
      var p := ps[..|ps| - 1];
      assert ps[|ps| - 1].0 != k;
      forall j | i < j < |p|
        ensures p[j].0 != k
      {
        assert p[j] == ps[j];
      }
      LastIndexAt(p, k, i);
    }
  }

  lemma NoMatchAbsent(ps: seq<(string, AttrValue)>, k: string)
    requires forall j :: 0 <= j < |ps| ==> ps[j].0 != k
    ensures !HasKey(AttrsAfter(ps), k)
  {
    AttrsAfterGet(ps, k);
  }

  /** "Not less than" is transitive, the order being total. */
  lemma NotLessTransitive(a: string, b: string, c: string)
    requires !LexLess(a, b) && !LexLess(b, c)
    ensures !LexLess(a, c)
  {
    if LexLess(a, c) {
      LexTotal(a, b);
      if a != b {
        LexTransitive(b, a, c);
      }
    }
  }

  /** A sequence whose head is not less than the head of a sorted rest is sorted. */
  lemma SortedCons(y: string, r: seq<string>)
    requires SortedDesc(r) && (|r| > 0 ==> !LexLess(y, r[0]))
    ensures SortedDesc([y] + r)
  {
    forall j | 0 <= j < |r|
      ensures !LexLess(y, r[j])
    {
      if j > 0 {
        NotLessTransitive(y, r[0], r[j]);
      }
    }
    assert forall j :: 0 < j < |r| + 1 ==> ([y] + r)[j] == r[j - 1];
  }

  lemma {:induction false} InsertDescSorted(x: string, ds: seq<string>)
    requires SortedDesc(ds)
    ensures SortedDesc(InsertDesc(x, ds))
    ensures |InsertDesc(x, ds)| == |ds| + 1
    ensures |ds| > 0 ==> InsertDesc(x, ds)[0] == x || InsertDesc(x, ds)[0] == ds[0]
    decreases |ds|
  {
    if ds == [] {
    } else if LexLess(ds[0], x) {
      LexAsymmetric(ds[0], x);
      SortedCons(x, ds);
    } else {
      assert SortedDesc(ds[1..]);
      InsertDescSorted(x, ds[1..]);
      SortedCons(ds[0], InsertDesc(x, ds[1..]));
    }
  }

  lemma {:induction false} SortDescSorted(ds: seq<string>)
    ensures SortedDesc(SortDesc(ds)) && |SortDesc(ds)| == |ds|
    decreases |ds|
  {
    if ds != [] {
      SortDescSorted(ds[1..]);
      InsertDescSorted(ds[0], SortDesc(ds[1..]));
    }
  }

  /** The first date after the sort is one of the dates, and no date is greater. */
  lemma SortDescHead(ds: seq<string>)
    requires |ds| > 0
    ensures |SortDesc(ds)| > 0 && SortDesc(ds)[0] in ds
    ensures forall j :: 0 <= j < |ds| ==> !LexLess(SortDesc(ds)[0], ds[j])
  {
    var r := SortDesc(ds);
    SortDescSorted(ds);
    assert r[0] in multiset(r);
    forall j | 0 <= j < |ds|
      ensures !LexLess(r[0], ds[j])
    {
      assert ds[j] in multiset(r);
      var q :| 0 <= q < |r| && r[q] == ds[j];
      if q == 0 {
        LexIrreflexive(r[0]);
      }
    }
  }

  /** A descending order of a collection of strings is unique, so the model's sort gives
      what any sort by the same comparison gives, stable or not. */
  lemma {:induction false} SortedUnique(a: seq<string>, b: seq<string>)
    requires SortedDesc(a) && SortedDesc(b) && multiset(a) == multiset(b)
    ensures a == b
    decreases |a|
  {
    assert |a| == |multiset(a)| == |multiset(b)| == |b|;
    if |a| > 0 {
      SortedHeads(a, b);
      TailMultiset(a, b);
      assert SortedDesc(a[1..]) && SortedDesc(b[1..]);
      SortedUnique(a[1..], b[1..]);
      assert a == [a[0]] + a[1..] && b == [b[0]] + b[1..];
    }
  }

  lemma SortedHeads(a: seq<string>, b: seq<string>)
    requires SortedDesc(a) && SortedDesc(b) && multiset(a) == multiset(b) && |a| > 0 && |b| > 0
    ensures a[0] == b[0]
  {
    assert a[0] in multiset(b) && b[0] in multiset(a);
    var p :| 0 <= p < |b| && b[p] == a[0];
    var q :| 0 <= q < |a| && a[q] == b[0];
    LexTotal(a[0], b[0]);
    if p == 0 {
    } else if q == 0 {
    } else {
      assert !LexLess(b[0], b[p]) && !LexLess(a[0], a[q]);
    }
  }

  lemma TailMultiset(a: seq<string>, b: seq<string>)
    requires multiset(a) == multiset(b) && |a| > 0 && |b| > 0 && a[0] == b[0]
    ensures multiset(a[1..]) == multiset(b[1..])
  {
    assert a == [a[0]] + a[1..] && b == [b[0]] + b[1..];
    assert multiset(a) == multiset{a[0]} + multiset(a[1..]);
    assert multiset(b) == multiset{b[0]} + multiset(b[1..]);
    assert multiset(a[1..]) == multiset(a) - multiset{a[0]};
    assert multiset(b[1..]) == multiset(b) - multiset{b[0]};
  }

  /** What `parseAttributes` returns: a dictionary with distinct, non-empty keys; every
      key other than the due key holds the value of the last match with that key; the
      due key does too, unless that value is falsy and a wikilink date remains in the
      text, in which case it holds the greatest such date; and the text is trimmed. */
  lemma ParseAttributesResult(cfg: Option<Settings>, text: string, k: string)
    ensures var ps := Pairs(cfg, Matches(cfg, text));
      var ds := WikilinkDates(TextAfter(text, Matches(cfg, text), ps));
      var r := ParseAttributesSpec(cfg, text);
      var due := DueKey(cfg);
      && Valid(r.attributes) && NoEmptyKey(r.attributes) && Trimmed(r.textWithoutAttributes)
      && (k != due || |ds| == 0 || !Falsy(LastValue(ps, due)) ==> Get(r.attributes, k) == LastValue(ps, k))
      && (k == due && |ds| > 0 && Falsy(LastValue(ps, due)) ==>
        exists d :: d in ds && Get(r.attributes, k) == Some(Str(d)) && forall e :: e in ds ==> !LexLess(d, e))
  {
    var ms := Matches(cfg, text);
    var ps := Pairs(cfg, ms);
    var t := TextAfter(text, ms, ps);
    var ds := WikilinkDates(t);
    var due := DueKey(cfg);
    var res := AttrsAfter(ps);
    var r := ParseAttributesSpec(cfg, text);
    AttrsAfterGet(ps, k);
    AttrsAfterGet(ps, due);
    if |ds| > 0 && Falsy(Get(res, due)) {
      var sorted := SortDesc(ds);
      SortDescHead(ds);
      SetGet(res, due, Str(sorted[0]), k);
      SetNoEmpty(res, due, Str(sorted[0]));
      assert r.attributes == Set(res, due, Str(sorted[0]));
      TrimSpec(WithoutLinks(t, sorted));
      if k == due {
        HeadIsMax(ds, sorted[0]);
      }
    } else {
      TrimSpec(WithoutLinks(t, ds));
    }
  }

  lemma HeadIsMax(ds: seq<string>, d: string)
    requires d in ds && forall j :: 0 <= j < |ds| ==> !LexLess(d, ds[j])
    ensures forall e :: e in ds ==> !LexLess(d, e)
  {
  }

  /** In the classic syntax every match has a key, so every key that appears in a
      match is in the dictionary. */
  lemma ClassicKeepsEveryKey(cfg: Option<Settings>, text: string, j: nat)
    requires !Dataview(cfg)
    requires j < |Matches(cfg, text)|
    ensures var ps := Pairs(cfg, Matches(cfg, text));
      ps[j].0 != "" && HasKey(AttrsAfter(ps), ps[j].0)
  {
    var ms := Matches(cfg, text);
    var ps := Pairs(cfg, ms);
    MatchesAreTokens(cfg, text, 0);
    ClassicTokenKey(cfg, ms[j]);
    AttrsAfterGet(ps, ps[j].0);
  }

  /** `parseAttributes`: the `forEach` over the matches, then the wikilink loop. */
  method ParseAttributes(cfg: Option<Settings>, text: string) returns (r: AttributesStructure)
    ensures r == ParseAttributesSpec(cfg, text)
  {
    var matches := Matches(cfg, text);
    var res, textWithoutAttributes := AbsorbMatches(cfg, text, matches);
    var dueDateAttribute := DueKey(cfg);
    var wikilinkDates := WikilinkDates(textWithoutAttributes);
    if |wikilinkDates| > 0 && Falsy(Get(res, dueDateAttribute)) {
      wikilinkDates := SortDesc(wikilinkDates);
      res := Set(res, dueDateAttribute, Str(wikilinkDates[0]));
    }
    textWithoutAttributes := RemoveWikilinks(textWithoutAttributes, wikilinkDates);
    r := AttributesStructure(Trim(textWithoutAttributes), res);
  }

  /** The `forEach` of `parseAttributes`. */
  method AbsorbMatches(cfg: Option<Settings>, text: string, matches: seq<string>)
    returns (res: Attributes, textWithoutAttributes: string)
    ensures res == AttrsAfter(Pairs(cfg, matches))
    ensures textWithoutAttributes == TextAfter(text, matches, Pairs(cfg, matches))
  {
    textWithoutAttributes := text;
    ghost var ps := Pairs(cfg, matches);
    res := [];
    var i := 0;
    while i < |matches|
      invariant 0 <= i <= |matches|
      invariant res == AttrsAfter(ps[..i])
      invariant textWithoutAttributes == TextAfter(text, matches[..i], ps[..i])
    {
      var kv := ParseSingle(cfg, matches[i]);
      assert kv == ps[i];
      assert matches[..i + 1][..i] == matches[..i];
      assert ps[..i + 1][..i] == ps[..i];
      if kv.0 != "" {
        res := Set(res, kv.0, kv.1);
        textWithoutAttributes := ReplaceFirst(textWithoutAttributes, matches[i], "");
      }
      i := i + 1;
    }
    assert matches[..i] == matches;
    assert ps[..i] == ps;
  }

  /** The wikilink loop of `parseAttributes`. */
  method RemoveWikilinks(text: string, wikilinkDates: seq<string>) returns (t: string)
    ensures t == WithoutLinks(text, wikilinkDates)
  {
    t := text;
    var j := 0;
    while j < |wikilinkDates|
      invariant 0 <= j <= |wikilinkDates|
      invariant t == WithoutLinks(text, wikilinkDates[..j])
    {
      assert wikilinkDates[..j + 1][..j] == wikilinkDates[..j];
      t := ReplaceFirst(t, WikilinkText(wikilinkDates[j]), "");
      j := j + 1;
    }
    assert wikilinkDates[..j] == wikilinkDates;
  }

  /** The token of each entry, in key order. */
  function Tokens(cfg: Option<Settings>, d: Attributes): (ts: seq<string>)
    ensures |ts| == |d| && forall i :: 0 <= i < |d| ==> ts[i] == AttributeToString(cfg, d[i].0, d[i].1)
  {
    seq(|d|, i requires 0 <= i < |d| => AttributeToString(cfg, d[i].0, d[i].1))
  }

  /** `attributesToString`: the text, a space and the tokens joined by spaces, trimmed;
      the bare text when there is no token. */
  function AttributesToString(cfg: Option<Settings>, a: AttributesStructure): string {
    var attributeStr := Join(Tokens(cfg, a.attributes), " ");
    if attributeStr != "" then Trim(a.textWithoutAttributes + " " + attributeStr)
    else a.textWithoutAttributes
  }

  /** Every token is non-empty, so the text stands alone exactly when there is no
      attribute. */
  lemma AttributesToStringBare(cfg: Option<Settings>, a: AttributesStructure)
    ensures a.attributes == [] ==> AttributesToString(cfg, a) == a.textWithoutAttributes
    ensures a.attributes != [] ==>
      AttributesToString(cfg, a) == Trim(a.textWithoutAttributes + " " + Join(Tokens(cfg, a.attributes), " "))
  {
    var ts := Tokens(cfg, a.attributes);
    if ts != [] {
      JoinNonEmpty(ts, " ");
    }
  }

  lemma {:induction false} JoinNonEmpty(ts: seq<string>, sep: string)
    requires |ts| > 0 && |ts[0]| > 0
    ensures Join(ts, sep) != ""
  {
    if |ts| > 1 {
      assert Join(ts, sep) == ts[0] + sep + Join(ts[1..], sep);
      assert |Join(ts, sep)| >= |ts[0]|;
    }
  }

  /** The flags `convertPriorityAttributes` turns into a `priority` value. */
  const PriorityLevels: seq<string> := ["critical", "high", "medium", "low", "lowest"]

  /** One step of its `forEach`: a priority flag is deleted and becomes the value of
      `priority`; any other key is left alone. */
  function PriorityStep(d: Attributes, k: string): Attributes {
    if k in PriorityLevels then Set(Remove(d, k), "priority", Str(k)) else d
  }

  /** The dictionary after the steps for the keys `ks`, in order. */
  function ConvertPriority(d: Attributes, ks: seq<string>): Attributes
    decreases |ks|
  {
    if ks == [] then d else PriorityStep(ConvertPriority(d, ks[..|ks| - 1]), ks[|ks| - 1])
  }

  /** `convertPriorityAttributes`: the steps run over the keys the dictionary had when
      the loop started. */
  method ConvertPriorityAttributes(a: AttributesStructure) returns (r: AttributesStructure)
    ensures r == a.(attributes := ConvertPriority(a.attributes, Keys(a.attributes)))
  {
    var keys := Keys(a.attributes);
    var attributes := a.attributes;
    for i := 0 to |keys|
      invariant attributes == ConvertPriority(a.attributes, keys[..i])
    {
      assert keys[..i + 1][..i] == keys[..i];
      var key := keys[i];
      if key in PriorityLevels {
        attributes := Remove(attributes, key);
        attributes := Set(attributes, "priority", Str(key));
      }
    }
    assert keys[..|keys|] == keys;
    r := a.(attributes := attributes);
  }

  /** The position of the last priority flag in `ks`. */
  function LastLevel(ks: seq<string>): (r: Option<nat>)
    ensures r.Some? ==> r.value < |ks| && ks[r.value] in PriorityLevels
    ensures r.Some? ==> forall j :: r.value < j < |ks| ==> ks[j] !in PriorityLevels
    ensures r.None? ==> forall j :: 0 <= j < |ks| ==> ks[j] !in PriorityLevels
    decreases |ks|
  {
    if ks == [] then None
    else if ks[|ks| - 1] in PriorityLevels then Some(|ks| - 1)
    else LastLevel(ks[..|ks| - 1])
  }

  /** What the dictionary reads after the steps for `ks`: a priority flag among `ks` is
      gone, `priority` holds the last priority flag among `ks` if there is one, and
      every other key reads what it read before. */
  lemma {:induction false} ConvertPriorityGet(d: Attributes, ks: seq<string>, k: string)
    requires Valid(d)
    ensures Valid(ConvertPriority(d, ks))
    ensures Get(ConvertPriority(d, ks), k) ==
      if k in PriorityLevels && k in ks then None
      else if k == "priority" && LastLevel(ks).Some? then Some(Str(ks[LastLevel(ks).value]))
      else Get(d, k)
    decreases |ks|
  {
    if ks != [] {
      var p := ks[..|ks| - 1];
      var key := ks[|ks| - 1];
      ConvertPriorityGet(d, p, k);
      assert ks == p + [key];
      var prev := ConvertPriority(d, p);
      if key in PriorityLevels {
        RemoveGet(prev, key, k);
        SetGet(Remove(prev, key), "priority", Str(key), k);
      }
    }
  }

  /** After `convertPriorityAttributes` no priority flag is left, `priority` holds the
      last flag in key order (or what it held, when there was none), and every other
      key is untouched. */
  lemma ConvertPriorityResult(a: AttributesStructure, k: string)
    requires Valid(a.attributes)
    ensures var d := a.attributes;
      var r := ConvertPriority(d, Keys(d));
      && Valid(r)
      && (k in PriorityLevels ==> Get(r, k).None?)
      && (k !in PriorityLevels && k != "priority" ==> Get(r, k) == Get(d, k))
      && (k == "priority" && LastLevel(Keys(d)).Some? ==> Get(r, k) == Some(Str(Keys(d)[LastLevel(Keys(d)).value])))
      && (k == "priority" && LastLevel(Keys(d)).None? ==> Get(r, k) == Get(d, k))
  {
    var d := a.attributes;
    ConvertPriorityGet(d, Keys(d), k);
    if k in PriorityLevels && k !in Keys(d) {
      FindNone(d, k);
    }
  }
}
