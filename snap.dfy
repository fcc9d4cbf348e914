/** The record parser parse_snap: a line-driven state machine that ignores
    everything before the first "Id:" line, then accumulates one product
    record per "Id:" line and hands it on when the next one starts, and once
    more at the end of the input. */
module Snap {
  import opened Text
  import opened CatPart

  /** One parsed review line; the date is whatever the date parser made of
      the date text (None when it was not a valid date). */
  datatype Review = Review(date: Option<string>, customer: string, rating: nat, votes: nat, helpful: nat)

  /** The integer groups of the review summary line. */
  datatype Summary = Summary(total: nat, downloaded: nat)

  /** REVIEW_SUMMARY_RE searched in a line: no match; a match whose groups
      int() and float() accept; or a match whose avg rating group, `[0-9.]+`,
      float() rejects (such as "." or "1.2.3"), on which the parser raises. */
  datatype SummaryMatch = NoMatch | Matched(summary: Summary) | RatingRejected

  /** The two regular expressions the parser does not take apart itself:
      REVIEW_SUMMARY_RE (searched in the line) and REVIEW_RE (matched at its start). */
  datatype Recognisers = Recognisers(summary: string -> SummaryMatch, review: string -> Option<Review>)

  /** The record dictionary built for one product. */
  datatype Product = Product(
    id: int,
    asin: Option<string>,
    title: Option<string>,
    group: Option<string>,
    salesrank: Option<nat>,
    similar: seq<string>,
    categories: seq<CatEntry>,
    reviews: seq<Review>,
    similarCount: nat,
    categoriesCount: nat,
    total: nat,
    downloaded: nat)

  /** The record opened by an "Id:" line. */
  function NewProduct(id: int): Product {
    Product(id, None, None, None, None, [], [], [], 0, 0, 0, 0)
  }

  /** line.split(':', 1)[1].strip() */
  function FieldValue(line: string): string {
    Strip(AfterFirstColon(line))
  }

  /** A raw line whose stripped text starts with "id:", in any case. */
  predicate IsIdLine(raw: string) {
    HasTag(Strip(raw), "id:")
  }

  /** The id an "Id:" line carries, when int() accepts it. */
  function IdOf(raw: string): Option<int> {
    ParseInt(FieldValue(Strip(raw)))
  }

  predicate HasFieldTag(line: string) {
    HasTag(line, "asin:") || HasTag(line, "title:") || HasTag(line, "group:")
    || HasTag(line, "salesrank:") || HasTag(line, "similar:")
  }

  /** The salesrank value: an integer when the text is all digits, otherwise absent. */
  function Salesrank(line: string): Option<nat> {
    var v := FieldValue(line);
    if IsDigits(v) then Some(DigitsValue(v)) else None
  }

  /** The line reaches the review summary branch and float() rejects the
      avg rating the pattern matched: the ValueError leaves the parser. */
  predicate RatingRaises(line: string, rec: Recognisers) {
    && !HasFieldTag(line) && '|' !in line && HasTag(line, "reviews: total:")
    && rec.summary(line).RatingRejected?
  }

  /** The effect of one stripped, non-"Id:" line on the open record: the
      branches in their order in the source, field tags first. A line on
      which the parser raises has no effect to describe. */
  function ApplyLine(p: Product, line: string, rec: Recognisers): (r: Product)
    requires !RatingRaises(line, rec)
    ensures r.id == p.id
    ensures r.categoriesCount - |r.categories| == p.categoriesCount - |p.categories|
  {
    if HasTag(line, "asin:") then p.(asin := Some(FieldValue(line)))
    else if HasTag(line, "title:") then p.(title := Some(FieldValue(line)))
    else if HasTag(line, "group:") then p.(group := Some(FieldValue(line)))
    else if HasTag(line, "salesrank:") then p.(salesrank := Salesrank(line))
    else if HasTag(line, "similar:") then
      var parts := Tokens(line);
      var p1 := if |parts| > 1 && IsDigits(parts[1]) then p.(similarCount := DigitsValue(parts[1])) else p;
      if |parts| > 2 then p1.(similar := parts[2..]) else p1
    else if '|' in line then
      var cats := ChainOf(line);
      p.(categoriesCount := p.categoriesCount + |cats|, categories := p.categories + cats)
    else if HasTag(line, "reviews: total:") then
      match rec.summary(line)
      case Matched(s) => p.(total := s.total, downloaded := s.downloaded)
      case NoMatch => p
      case RatingRejected => assert false; p
    else
      match rec.review(line)
      case Some(rv) => p.(reviews := p.reviews + [rv])
      case None => p
  }

  /** The generator's state: the records already handed on, the open record,
      and whether int() has failed on an "Id:" line. */
  datatype ParserState = ParserState(done: seq<Product>, current: Option<Product>, failed: bool)

  const Start := ParserState([], None, false)

  /** One line of input. An "Id:" line hands on the open record before its
      id is converted, so the record is out even when the conversion fails;
      a rejected avg rating ends the parse with the open record unyielded. */
  function Step(st: ParserState, raw: string, rec: Recognisers): ParserState {
    var line := Strip(raw);
    if HasTag(line, "id:") then
      var done := if st.current.Some? then st.done + [st.current.value] else st.done;
      match ParseInt(FieldValue(line))
      case None => ParserState(done, None, true)
      case Some(n) => ParserState(done, Some(NewProduct(n)), false)
    else if st.current.None? then st
    else if RatingRaises(line, rec) then ParserState(st.done, None, true)
    else ParserState(st.done, Some(ApplyLine(st.current.value, line, rec)), false)
  }

  function RunFrom(st: ParserState, lines: seq<string>, rec: Recognisers): ParserState
    decreases |lines|
  {
    if lines == [] || st.failed then st else RunFrom(Step(st, lines[0], rec), lines[1..], rec)
  }

  /** What the consumer of the generator sees: the records it yielded, and
      whether iteration ended in a ValueError rather than at end of input. */
  datatype Parsed = Parsed(products: seq<Product>, failed: bool)

  function Finish(st: ParserState): Parsed {
    if st.failed then Parsed(st.done, true)
    else Parsed(st.done + if st.current.Some? then [st.current.value] else [], false)
  }

  /** parse_snap, as a specification. */
  function ParseSnapSpec(lines: seq<string>, rec: Recognisers): Parsed {
    Finish(RunFrom(Start, lines, rec))
  }

  /** parse_snap over the lines of the corpus. */
  method ParseSnap(lines: seq<string>, rec: Recognisers) returns (r: Parsed)
    ensures r == ParseSnapSpec(lines, rec)
  {
    var done: seq<Product> := [];
    var current: Option<Product> := None;
    var i := 0;
    while i < |lines|
      invariant 0 <= i <= |lines|
      invariant RunFrom(ParserState(done, current, false), lines[i..], rec) == RunFrom(Start, lines, rec)
    {
      var line := Strip(lines[i]);
      assert lines[i..][1..] == lines[i + 1..];
      if HasTag(line, "id:") {
        if current.Some? {
          done := done + [current.value];
        }
        var id := ParseInt(FieldValue(line));
        if id.None? {
          return Parsed(done, true);
        }
        current := Some(NewProduct(id.value));
      } else if current.Some? {
        if RatingRaises(line, rec) {
          return Parsed(done, true);
        }
        current := Some(ApplyLine(current.value, line, rec));
      }
      i := i + 1;
    }
    r := Parsed(done + if current.Some? then [current.value] else [], false);
  }

  // ---------------------------------------------------------------------
  // Properties of the record stream

  /** Lines before the first "Id:" line have no effect. */
  lemma {:induction false} LeadingLinesIgnored(pre: seq<string>, rest: seq<string>, rec: Recognisers)
    requires forall k :: 0 <= k < |pre| ==> !IsIdLine(pre[k])
    ensures ParseSnapSpec(pre + rest, rec) == ParseSnapSpec(rest, rec)
  {
    if pre == [] {
      assert pre + rest == rest;
    } else {
      assert (pre + rest)[1..] == pre[1..] + rest;
      assert Step(Start, pre[0], rec) == Start;
      LeadingLinesIgnored(pre[1..], rest, rec);
    }
  }

  /** Every "Id:" line carries an id that int() accepts. */
  predicate IdsWellFormed(lines: seq<string>) {
    forall k :: 0 <= k < |lines| && IsIdLine(lines[k]) ==> IdOf(lines[k]).Some?
  }

  /** A raw line that is not an "Id:" line and on which the parser raises
      when a record is open. */
  predicate RaisesAt(raw: string, rec: Recognisers) {
    !IsIdLine(raw) && RatingRaises(Strip(raw), rec)
  }

  /** A record is open before line k: one was open at the start, or an
      "Id:" line comes before k. */
  predicate OpenBefore(open: bool, lines: seq<string>, k: int) {
    open || exists j :: 0 <= j < |lines| && j < k && IsIdLine(lines[j])
  }

  /** Parsing the lines, with a record open at the start or not, raises on
      none of them: every "Id:" line carries an int, and no rejected avg
      rating is met while a record is open. */
  predicate NoRaise(open: bool, lines: seq<string>, rec: Recognisers) {
    && IdsWellFormed(lines)
    && forall k :: 0 <= k < |lines| && RaisesAt(lines[k], rec) ==> !OpenBefore(open, lines, k)
  }

  lemma NoRaiseTail(open: bool, lines: seq<string>, rec: Recognisers)
    requires lines != [] && NoRaise(open, lines, rec)
    ensures IsIdLine(lines[0]) ==> IdOf(lines[0]).Some?
    ensures RaisesAt(lines[0], rec) ==> !open
    ensures NoRaise(open || IsIdLine(lines[0]), lines[1..], rec)
  {
    var tail := lines[1..];
    var open' := open || IsIdLine(lines[0]);
    assert !OpenBefore(open, lines, 0) ==> !open;
    forall k | 0 <= k < |tail| && IsIdLine(tail[k]) ensures IdOf(tail[k]).Some? {
      assert tail[k] == lines[k + 1];
    }
    forall k | 0 <= k < |tail| && RaisesAt(tail[k], rec) ensures !OpenBefore(open', tail, k) {
      assert tail[k] == lines[k + 1];
      assert !OpenBefore(open, lines, k + 1);
      assert !IsIdLine(lines[0]);
      forall j | 0 <= j < |tail| && j < k ensures !IsIdLine(tail[j]) {
        assert tail[j] == lines[j + 1];
      }
    }
  }

  /** The id a line opens a record with, if it is a well-formed "Id:" line. */
  function OpenedId(raw: string): seq<int> {
    if IsIdLine(raw) && IdOf(raw).Some? then [IdOf(raw).value] else []
  }

  /** The ids of the well-formed "Id:" lines, in file order. */
  function LineIds(lines: seq<string>): seq<int> {
    if lines == [] then [] else OpenedId(lines[0]) + LineIds(lines[1..])
  }

  function ProductIds(ps: seq<Product>): seq<int> {
    if ps == [] then [] else [ps[0].id] + ProductIds(ps[1..])
  }

  lemma {:induction false} ProductIdsAppend(a: seq<Product>, b: seq<Product>)
    ensures ProductIds(a + b) == ProductIds(a) + ProductIds(b)
  {
    if a == [] {
      assert a + b == b;
    } else {
      assert (a + b)[1..] == a[1..] + b;
      ProductIdsAppend(a[1..], b);
    }
  }

  /** The ids of the records handed on so far and of the open one. */
  function PendingIds(st: ParserState): seq<int> {
    ProductIds(st.done) + if st.current.Some? then [st.current.value.id] else []
  }

  lemma {:induction false} RunIds(st: ParserState, lines: seq<string>, rec: Recognisers)
    requires !st.failed && NoRaise(st.current.Some?, lines, rec)
    ensures !RunFrom(st, lines, rec).failed
    ensures PendingIds(RunFrom(st, lines, rec)) == PendingIds(st) + LineIds(lines)
    decreases |lines|
  {
    if lines == [] {
      assert PendingIds(st) + [] == PendingIds(st);
    } else {
      NoRaiseTail(st.current.Some?, lines, rec);
      var st' := Step(st, lines[0], rec);
      StepIds(st, lines[0], rec);
      RunIds(st', lines[1..], rec);
      assert RunFrom(st, lines, rec) == RunFrom(st', lines[1..], rec);
      assert LineIds(lines) == OpenedId(lines[0]) + LineIds(lines[1..]);
      ConcatAssoc(PendingIds(st), OpenedId(lines[0]), LineIds(lines[1..]));
    }
  }

  lemma StepIds(st: ParserState, raw: string, rec: Recognisers)
    requires !st.failed && (IsIdLine(raw) ==> IdOf(raw).Some?) && (RaisesAt(raw, rec) ==> st.current.None?)
    ensures !Step(st, raw, rec).failed
    ensures Step(st, raw, rec).current.Some? <==> st.current.Some? || IsIdLine(raw)
    ensures PendingIds(Step(st, raw, rec)) == PendingIds(st) + OpenedId(raw)
  {
    if IsIdLine(raw) && st.current.Some? {
      ProductIdsAppend(st.done, [st.current.value]);
    }
  }

  /** When nothing raises, parsing ends normally and yields exactly one
      record per "Id:" line, in file order, the last one included. */
  lemma OneRecordPerIdLine(lines: seq<string>, rec: Recognisers)
    requires NoRaise(false, lines, rec)
    ensures !ParseSnapSpec(lines, rec).failed
    ensures ProductIds(ParseSnapSpec(lines, rec).products) == LineIds(lines)
  {
    RunIds(Start, lines, rec);
    var st := RunFrom(Start, lines, rec);
    assert PendingIds(Start) == [];
    ConcatEmpty(LineIds(lines));
    var ids := PendingIds(st);
    assert ids == LineIds(lines);
    var out := Finish(st).products;
    if st.current.Some? {
      assert out == st.done + [st.current.value];
      ProductIdsAppend(st.done, [st.current.value]);
      assert ProductIds([st.current.value]) == [st.current.value.id];
      assert ProductIds(out) == ids;
    } else {
      assert out == st.done;
      ConcatEmpty(ProductIds(st.done));
      assert ProductIds(out) == ids;
    }
  }

  lemma {:induction false} RunFailsOnBadId(st: ParserState, lines: seq<string>, rec: Recognisers, k: nat)
    requires !st.failed && k < |lines| && IsIdLine(lines[k]) && IdOf(lines[k]).None?
    ensures RunFrom(st, lines, rec).failed
    decreases |lines|
  {
    var st' := Step(st, lines[0], rec);
    if k == 0 {
      assert st'.failed;
      assert RunFrom(st', lines[1..], rec) == st' by {
        if lines[1..] != [] {
          assert RunFrom(st', lines[1..], rec) == st';
        }
      }
    } else if !st'.failed {
      assert lines[1..][k - 1] == lines[k];
      RunFailsOnBadId(st', lines[1..], rec, k - 1);
    }
  }

  /** A rejected avg rating met while a record is open stops the parse. */
  lemma {:induction false} RunFailsOnRating(st: ParserState, lines: seq<string>, rec: Recognisers, k: nat)
    requires !st.failed && k < |lines| && RaisesAt(lines[k], rec) && OpenBefore(st.current.Some?, lines, k)
    ensures RunFrom(st, lines, rec).failed
    decreases |lines|
  {
    var st' := Step(st, lines[0], rec);
    assert RunFrom(st, lines, rec) == RunFrom(st', lines[1..], rec);
    if k == 0 {
      assert st'.failed;
      assert RunFrom(st', lines[1..], rec) == st' by {
        if lines[1..] != [] {
          assert RunFrom(st', lines[1..], rec) == st';
        }
      }
    } else if st'.failed {
      assert RunFrom(st', lines[1..], rec) == st' by {
        if lines[1..] != [] {
          assert RunFrom(st', lines[1..], rec) == st';
        }
      }
    } else {
      var tail := lines[1..];
      assert tail[k - 1] == lines[k];
      assert OpenBefore(st'.current.Some?, tail, k - 1) by {
        if !st.current.Some? && !IsIdLine(lines[0]) {
          var j :| 0 <= j < |lines| && j < k && IsIdLine(lines[j]);
          assert tail[j - 1] == lines[j];
        }
      }
      RunFailsOnRating(st', tail, rec, k - 1);
    }
  }

  /** Parsing ends in a ValueError exactly when some "Id:" line carries a
      value int() rejects, or a rejected avg rating is met while a record is
      open. */
  lemma FailsExactlyOnRejectedValue(lines: seq<string>, rec: Recognisers)
    ensures ParseSnapSpec(lines, rec).failed <==> !NoRaise(false, lines, rec)
  {
    if NoRaise(false, lines, rec) {
      OneRecordPerIdLine(lines, rec);
    } else if !IdsWellFormed(lines) {
      var k :| 0 <= k < |lines| && IsIdLine(lines[k]) && IdOf(lines[k]).None?;
      RunFailsOnBadId(Start, lines, rec, k);
    } else {
      var k :| 0 <= k < |lines| && RaisesAt(lines[k], rec) && OpenBefore(false, lines, k);
      RunFailsOnRating(Start, lines, rec, k);
    }
  }

  ghost predicate Counted(p: Product) {
    p.categoriesCount == |p.categories|
  }

  ghost predicate StateCounted(st: ParserState) {
    (forall k :: 0 <= k < |st.done| ==> Counted(st.done[k]))
    && (st.current.Some? ==> Counted(st.current.value))
  }

  lemma {:induction false} RunCounted(st: ParserState, lines: seq<string>, rec: Recognisers)
    requires StateCounted(st)
    ensures StateCounted(RunFrom(st, lines, rec))
    decreases |lines|
  {
    if lines != [] && !st.failed {
      RunCounted(Step(st, lines[0], rec), lines[1..], rec);
    }
  }

  /** Every record's categories_count equals the number of its category entries. */
  lemma CategoriesCounted(lines: seq<string>, rec: Recognisers)
    ensures forall k :: 0 <= k < |ParseSnapSpec(lines, rec).products| ==>
      ParseSnapSpec(lines, rec).products[k].categoriesCount == |ParseSnapSpec(lines, rec).products[k].categories|
  {
    RunCounted(Start, lines, rec);
  }

  // ---------------------------------------------------------------------
  // Properties of one line

  /** A field tag wins over the category branch: a tagged line never adds
      category entries or reviews, even when it contains '|'. */
  lemma TagsBeforeCategories(p: Product, line: string, rec: Recognisers)
    requires HasFieldTag(line)
    ensures ApplyLine(p, line, rec).categories == p.categories
    ensures ApplyLine(p, line, rec).categoriesCount == p.categoriesCount
    ensures ApplyLine(p, line, rec).reviews == p.reviews
  {
    var r := ApplyLine(p, line, rec);
    if HasTag(line, "asin:") || HasTag(line, "title:") || HasTag(line, "group:") || HasTag(line, "salesrank:") {
      assert r.(asin := p.asin, title := p.title, group := p.group, salesrank := p.salesrank) == p;
    } else {
      assert HasTag(line, "similar:");
      assert r.(similar := p.similar, similarCount := p.similarCount) == p;
    }
  }

  /** An asin, title or group line sets that field to the stripped text
      after its tag, and nothing else changes. */
  lemma FieldLine(p: Product, line: string, rec: Recognisers)
    ensures HasTag(line, "asin:") ==> ApplyLine(p, line, rec) == p.(asin := Some(Strip(line[5..])))
    ensures HasTag(line, "title:") ==> ApplyLine(p, line, rec) == p.(title := Some(Strip(line[6..])))
    ensures HasTag(line, "group:") ==> ApplyLine(p, line, rec) == p.(group := Some(Strip(line[6..])))
  {
    if HasTag(line, "asin:") {
      TaggedValue(line, "asin:");
    } else if HasTag(line, "title:") {
      TaggedValue(line, "title:");
    } else if HasTag(line, "group:") {
      assert !HasTag(line, "title:") by {
        assert LowerChar(line[0]) == 'g';
      }
      TaggedValue(line, "group:");
    }
  }

  /** A salesrank line sets the rank to the integer when the value is all
      ASCII digits and to None otherwise; nothing else changes. */
  lemma SalesrankLine(p: Product, line: string, rec: Recognisers)
    requires HasTag(line, "salesrank:")
    ensures var r := ApplyLine(p, line, rec);
      && (r.salesrank.Some? <==> IsDigits(FieldValue(line)))
      && (r.salesrank.Some? ==> r.salesrank.value == DigitsValue(FieldValue(line)))
      && r.(salesrank := p.salesrank) == p
  {
    assert !HasTag(line, "asin:") && !HasTag(line, "title:") && !HasTag(line, "group:") by {
      assert LowerChar(line[0]) == 's';
    }
  }

  /** A similar line: the count is set only when the second token is all
      digits, and the list is the tokens from the third on whatever the count
      says; a line with fewer than three tokens keeps the previous list. */
  lemma SimilarLine(p: Product, line: string, rec: Recognisers)
    requires HasTag(line, "similar:")
    ensures var r := ApplyLine(p, line, rec); var t := Tokens(line);
      && r.similar == (if |t| > 2 then t[2..] else p.similar)
      && r.similarCount == (if |t| > 1 && IsDigits(t[1]) then DigitsValue(t[1]) else p.similarCount)
      && r.(similar := p.similar, similarCount := p.similarCount) == p
  {
    assert !HasTag(line, "asin:") && !HasTag(line, "title:") && !HasTag(line, "group:") by {
      assert LowerChar(line[0]) == 's';
    }
    assert !HasTag(line, "salesrank:") by {
      assert LowerChar(line[1]) == 'i';
    }
  }

  /** An untagged line containing '|' appends its chain to the categories
      and adds the chain's length to categories_count; nothing else changes. */
  lemma CategoryLine(p: Product, line: string, rec: Recognisers)
    requires !HasFieldTag(line) && '|' in line
    ensures ApplyLine(p, line, rec) ==
      p.(categories := p.categories + ChainOf(line), categoriesCount := p.categoriesCount + |ChainOf(line)|)
  {
  }

  /** A review summary line while a record is open: no match leaves the
      record as it was, a match sets total and downloaded, and a rejected
      avg rating raises, ending the parse with the open record unyielded. */
  lemma SummaryLine(st: ParserState, raw: string, rec: Recognisers)
    requires !st.failed && st.current.Some? && !IsIdLine(raw)
    requires !HasFieldTag(Strip(raw)) && '|' !in Strip(raw) && HasTag(Strip(raw), "reviews: total:")
    ensures var m := rec.summary(Strip(raw)); var p := st.current.value;
      && (m.NoMatch? ==> Step(st, raw, rec) == st)
      && (m.Matched? ==>
            Step(st, raw, rec) == st.(current := Some(p.(total := m.summary.total, downloaded := m.summary.downloaded))))
      && (m.RatingRejected? ==> Step(st, raw, rec) == ParserState(st.done, None, true))
  {
  }

  /** Any other line either appends one review, when the review pattern
      matches, or leaves the record as it was. */
  lemma OtherLine(p: Product, line: string, rec: Recognisers)
    requires !HasFieldTag(line) && '|' !in line && !HasTag(line, "reviews: total:")
    ensures rec.review(line).None? ==> ApplyLine(p, line, rec) == p
    ensures rec.review(line).Some? ==> ApplyLine(p, line, rec) == p.(reviews := p.reviews + [rec.review(line).value])
  {
  }
}
