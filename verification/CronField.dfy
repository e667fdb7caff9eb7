/**
 The cron field parser (app/routers/generic_resources.py, `_cron_field_values`),
 over any reading of integers and any notion of white space.
 */
module CronField {
  import opened Options
  import opened Strings

  // `int(text)`, None for a ValueError, and the characters `str.strip` drops.
  datatype Reader = Reader(toInt: string -> Option<int>, isSpace: char -> bool)

  datatype Span = Span(start: int, end: int, step: int)

  // ---------------------------------------------------------------- the grammar

  // item := base | base "/" step
  // base := "*" | number | number "-" number
  ghost predicate Reads(rd: Reader, item: string, lo: int, hi: int, span: Span) {
    && item != ""
    && (('/' !in item && span.step == 1 && BaseReads(rd, item, lo, hi, span))
        || exists base, step ::
             && item == base + ['/'] + step && '/' !in base
             && rd.toInt(step) == Some(span.step)
             && BaseReads(rd, base, lo, hi, span))
  }

  ghost predicate BaseReads(rd: Reader, base: string, lo: int, hi: int, span: Span) {
    if base == "*" then span.start == lo && span.end == hi
    else if '-' !in base then rd.toInt(base) == Some(span.start) && span.end == span.start
    else exists first, last ::
           && base == first + ['-'] + last && '-' !in first
           && rd.toInt(first) == Some(span.start) && rd.toInt(last) == Some(span.end)
  }

  predicate InRange(span: Span, lo: int, hi: int) {
    lo <= span.start <= span.end <= hi && span.step > 0
  }

  ghost predicate ItemAccepted(rd: Reader, item: string, lo: int, hi: int) {
    exists span :: Reads(rd, item, lo, hi, span) && InRange(span, lo, hi)
  }

  predicate SpanNames(span: Span, v: int)
    requires span.step > 0
  {
    span.start <= v <= span.end && (v - span.start) % span.step == 0
  }

  ghost predicate ItemNames(rd: Reader, item: string, lo: int, hi: int, v: int) {
    exists span :: Reads(rd, item, lo, hi, span) && InRange(span, lo, hi) && SpanNames(span, v)
  }

  // A field is a comma-separated list of items, each with white space around it.
  ghost predicate FieldAccepted(rd: Reader, part: string, lo: int, hi: int) {
    forall item | item in Split(part, ',') :: ItemAccepted(rd, Strip(item, rd.isSpace), lo, hi)
  }

  ghost predicate FieldNames(rd: Reader, part: string, lo: int, hi: int, v: int) {
    exists item | item in Split(part, ',') :: ItemNames(rd, Strip(item, rd.isSpace), lo, hi, v)
  }

  // --------------------------------------------------------------- one item read

  // `s.split(c, 1)` where `c` occurs.
  function FirstCut(s: string, c: char): (r: Option<(string, string)>)
    ensures r.None? <==> c !in s
    ensures r.Some? ==> s == r.value.0 + [c] + r.value.1 && c !in r.value.0
  {
    if s == "" then None
    else if s[0] == c then Some(("", s[1..]))
    else
      var rest := FirstCut(s[1..], c);
      if rest.None? then None else Some(([s[0]] + rest.value.0, rest.value.1))
  }

  lemma FirstCutIsUnique(a: string, b: string, a': string, b': string, c: char)
    requires a + [c] + b == a' + [c] + b' && c !in a && c !in a'
    ensures a == a' && b == b'
  {
    var s := a + [c] + b;
    assert s == a' + [c] + b';
    assert s[|a|] == c && forall i | 0 <= i < |a| :: s[i] == a[i];
    assert s[|a'|] == c && forall i | 0 <= i < |a'| :: s[i] == a'[i];
    assert a == s[..|a|] && a' == s[..|a'|];
    assert b == s[|a| + 1..] && b' == s[|a'| + 1..];
  }

  function ReadBase(rd: Reader, base: string, lo: int, hi: int): Option<(int, int)> {
    if base == "*" then Some((lo, hi))
    else
      match FirstCut(base, '-')
      case None =>
        (match rd.toInt(base)
         case Some(n) => Some((n, n))
         case None => None)
      case Some(cut) =>
        var first, last := rd.toInt(cut.0), rd.toInt(cut.1);
        if first.Some? && last.Some? then Some((first.value, last.value)) else None
  }

  function ReadItem(rd: Reader, item: string, lo: int, hi: int): Option<Span> {
    if item == "" then None
    else
      var cut := FirstCut(item, '/');
      var step := if cut.None? then Some(1) else rd.toInt(cut.value.1);
      var range := ReadBase(rd, if cut.None? then item else cut.value.0, lo, hi);
      if step.Some? && range.Some? then Some(Span(range.value.0, range.value.1, step.value)) else None
  }

  lemma ReadBaseIff(rd: Reader, base: string, lo: int, hi: int, span: Span)
    ensures ReadBase(rd, base, lo, hi) == Some((span.start, span.end)) <==> BaseReads(rd, base, lo, hi, span)
  {
    var cut := FirstCut(base, '-');
    if base != "*" && cut.Some? {
      assert base == cut.value.0 + ['-'] + cut.value.1;
      if BaseReads(rd, base, lo, hi, span) {
        var first, last :| && base == first + ['-'] + last && '-' !in first
                           && rd.toInt(first) == Some(span.start) && rd.toInt(last) == Some(span.end);
        FirstCutIsUnique(first, last, cut.value.0, cut.value.1, '-');
      }
    }
  }

  // Cutting at the first slash and the first hyphen reads exactly the grammar.
  lemma ReadItemIff(rd: Reader, item: string, lo: int, hi: int, span: Span)
    ensures ReadItem(rd, item, lo, hi) == Some(span) <==> Reads(rd, item, lo, hi, span)
  {
    hide BaseReads, ReadBase;
    var cut := FirstCut(item, '/');
    if cut.None? {
      ReadBaseIff(rd, item, lo, hi, span);
    } else {
      ReadBaseIff(rd, cut.value.0, lo, hi, span);
      assert item == cut.value.0 + ['/'] + cut.value.1;
      if Reads(rd, item, lo, hi, span) {
        var base, step :| && item == base + ['/'] + step && '/' !in base
                          && rd.toInt(step) == Some(span.step) && BaseReads(rd, base, lo, hi, span);
        FirstCutIsUnique(base, step, cut.value.0, cut.value.1, '/');
      }
    }
  }

  lemma ItemIff(rd: Reader, item: string, lo: int, hi: int)
    ensures var span := ReadItem(rd, item, lo, hi);
      && (ItemAccepted(rd, item, lo, hi) <==> span.Some? && InRange(span.value, lo, hi))
      && forall v :: ItemNames(rd, item, lo, hi, v) <==>
           span.Some? && InRange(span.value, lo, hi) && SpanNames(span.value, v)
  {
    hide Reads, ReadItem;
    forall span
      ensures ReadItem(rd, item, lo, hi) == Some(span) <==> Reads(rd, item, lo, hi, span)
    {
      ReadItemIff(rd, item, lo, hi, span);
    }
  }

  // ------------------------------------------------------------ the common forms

  lemma FirstCutOf(a: string, b: string, c: char)
    requires c !in a
    ensures FirstCut(a + [c] + b, c) == Some((a, b))
  {
    var s := a + [c] + b;
    assert s[|a|] == c;
    var cut := FirstCut(s, c);
    FirstCutIsUnique(a, b, cut.value.0, cut.value.1, c);
  }

  lemma FirstCutOfNone(s: string, c: char)
    requires c !in s
    ensures FirstCut(s, c).None?
  {
  }

  // `first-last/step` names every step-th value from first to last, `first-last`
  // each of them, within the bounds or not at all.
  lemma RangeItemNamesIff(
    rd: Reader, first: string, last: string, step: string, a: int, b: int, n: int, lo: int, hi: int, v: int)
    requires '-' !in first && '/' !in first && '/' !in last
    requires rd.toInt(first) == Some(a) && rd.toInt(last) == Some(b) && rd.toInt(step) == Some(n)
    ensures ItemNames(rd, first + "-" + last + "/" + step, lo, hi, v)
       <==> lo <= a <= v <= b <= hi && n > 0 && (v - a) % n == 0
    ensures ItemNames(rd, first + "-" + last, lo, hi, v) <==> lo <= a <= v <= b <= hi
  {
    hide ItemNames, FirstCut;
    var base := first + ['-'] + last;
    FirstCutOf(first, last, '-');
    assert base[|first|] == '-';
    FirstCutOf(base, step, '/');
    FirstCutOfNone(base, '/');
    assert base + ['/'] + step == first + "-" + last + "/" + step && base == first + "-" + last;
    ItemIff(rd, base + ['/'] + step, lo, hi);
    ItemIff(rd, base, lo, hi);
    assert base != "*" by { assert |base| > 1 || base == "-"; }
    assert ReadBase(rd, base, lo, hi) == Some((a, b));
  }

  // `*/step` names every step-th value from the lower bound on, `*` all within the bounds.
  lemma StarItemNamesIff(rd: Reader, step: string, n: int, lo: int, hi: int, v: int)
    requires rd.toInt(step) == Some(n)
    ensures ItemNames(rd, "*/" + step, lo, hi, v) <==> lo <= v <= hi && n > 0 && (v - lo) % n == 0
    ensures ItemNames(rd, "*", lo, hi, v) <==> lo <= v <= hi
  {
    hide ItemNames, FirstCut;
    FirstCutOf("*", step, '/');
    FirstCutOfNone("*", '/');
    assert "*" + ['/'] + step == "*/" + step;
    ItemIff(rd, "*/" + step, lo, hi);
    ItemIff(rd, "*", lo, hi);
  }

  // ------------------------------------------------------------------- the loops

  lemma SmallMultiple(d: int, step: int)
    requires 0 <= d * step < step
    ensures d == 0
  {
  }

  lemma NoneBetween(start: int, v: int, x: int, step: int)
    requires step > 0 && (v - start) % step == 0 && (x - start) % step == 0 && v < x
    ensures v + step <= x
  {
    var a, b := (v - start) / step, (x - start) / step;
    assert v - start == a * step && x - start == b * step;
    assert x - v == (b - a) * step;
    if x < v + step {
      SmallMultiple(b - a, step);
    }
  }

  lemma NextIsNamed(start: int, v: int, step: int)
    requires step > 0 && (v - start) % step == 0
    ensures (v + step - start) % step == 0
  {
    var x := v + step - start;
    var a, q, r := (v - start) / step, x / step, x % step;
    assert v - start == a * step && x == q * step + r;
    assert r == (a + 1 - q) * step;
    SmallMultiple(a + 1 - q, step);
  }

  // `range(start, end + 1, step)`
  method RangeValues(span: Span) returns (values: set<int>)
    requires span.step > 0
    ensures forall v :: v in values <==> SpanNames(span, v)
  {
    values := {};
    var v := span.start;
    assert (v - span.start) % span.step == 0;
    while v <= span.end
      invariant v >= span.start && (v - span.start) % span.step == 0
      invariant forall x :: x in values <==> SpanNames(span, x) && x < v
      decreases span.end - v
    {
      NextIsNamed(span.start, v, span.step);
      forall x | SpanNames(span, x) && v < x
        ensures v + span.step <= x
      {
        NoneBetween(span.start, v, x, span.step);
      }
      values := values + {v};
      v := v + span.step;
    }
  }

  // The field parser returns exactly the values some item names, always some
  // value and only values within the bounds, and rejects every other field.
  method CronFieldValues(rd: Reader, part: string, lo: int, hi: int) returns (values: Option<set<int>>)
    ensures values.Some? <==> FieldAccepted(rd, part, lo, hi)
    ensures values.Some? ==> forall v :: v in values.value <==> FieldNames(rd, part, lo, hi, v)
    ensures values.Some? ==> values.value != {} && forall v | v in values.value :: lo <= v <= hi
  {
    hide ItemAccepted, ItemNames, ReadItem, Strip, Split;
    var items := Split(part, ',');
    var found: set<int> := {};
    for i := 0 to |items|
      invariant forall k | 0 <= k < i :: ItemAccepted(rd, Strip(items[k], rd.isSpace), lo, hi)
      invariant forall v :: v in found <==>
        exists k | 0 <= k < i :: ItemNames(rd, Strip(items[k], rd.isSpace), lo, hi, v)
      invariant forall v | v in found :: lo <= v <= hi
      invariant i > 0 ==> found != {}
    {
      var item := Strip(items[i], rd.isSpace);
      var span := ReadItem(rd, item, lo, hi);
      ItemIff(rd, item, lo, hi);
      if span.None? || !InRange(span.value, lo, hi) {
        assert items[i] in items;
        return None;
      }
      var named := RangeValues(span.value);
      assert SpanNames(span.value, span.value.start);
      assert span.value.start in named;
      found := found + named;
    }
    values := Some(found);
  }
}
