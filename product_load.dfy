/** The second pass of the loader (process_products_and_reviews): every
    parsed record with an asin contributes one product row, its category
    memberships, its related pairs and its review rows to four buffers; the
    buffers are flushed, products first, whenever the number of accepted
    records reaches a multiple of the batch size, and once more at the end. */
module ProductLoad {
  import opened Text
  import opened CatPart
  import opened Snap
  import opened Db
  import Collect
  import CategoryLoad

  const BATCH_SIZE: nat := 2000

  // ---------------------------------------------------------------------
  // The rows of one record

  /** `if not asin: continue`: only a missing or empty asin drops a record. */
  predicate Accepted(p: Product) {
    p.asin.Some? && p.asin.value != []
  }

  /** The sum of the ratings, accumulated front to back. */
  function RatingSum(rs: seq<Review>): nat {
    if rs == [] then 0 else RatingSum(rs[..|rs| - 1]) + rs[|rs| - 1].rating
  }

  /** avg_rating before rounding: absent without reviews. */
  function AvgRating(rs: seq<Review>): Option<Ratio> {
    if |rs| == 0 then None else Some(Ratio(RatingSum(rs), |rs|))
  }

  /** prod_row */
  function ProductRowOf(p: Product): ProductRow
    requires Accepted(p)
  {
    ProductRow(p.id, p.asin.value, p.title, p.group, p.salesrank, |p.reviews|, AvgRating(p.reviews), 0)
  }

  /** The Product_category rows: the mapped categories, in order. */
  function MembershipRows(asin: string, cats: seq<CatEntry>, oldToNew: map<nat, nat>): seq<(string, nat)> {
    if cats == [] then []
    else
      var c := cats[|cats| - 1];
      MembershipRows(asin, cats[..|cats| - 1], oldToNew) + if c.oldId in oldToNew then [(asin, oldToNew[c.oldId])] else []
  }

  /** (LEAST, GREATEST) of two asins, by Python's string order. */
  function Canonical(a: string, b: string): (string, string) {
    if LexLess(a, b) then (a, b) else (b, a)
  }

  /** The Related_products rows: one canonical pair per non-empty similar
      asin other than the record's own, in order. */
  function RelatedRows(asin: string, sims: seq<string>): seq<(string, string)> {
    if sims == [] then []
    else
      var sim := sims[|sims| - 1];
      RelatedRows(asin, sims[..|sims| - 1]) + if sim != [] && sim != asin then [Canonical(asin, sim)] else []
  }

  /** The reviews rows: one per parsed review, in order. */
  function ReviewRows(asin: string, rs: seq<Review>): seq<ReviewRow> {
    if rs == [] then []
    else
      var r := rs[|rs| - 1];
      ReviewRows(asin, rs[..|rs| - 1]) + [ReviewRow(asin, r.customer, r.rating, r.date, r.votes, r.helpful)]
  }

  /** Rows of the four kinds, in the order they are buffered. */
  datatype Rows = Rows(
    products: seq<ProductRow>,
    memberships: seq<(string, nat)>,
    related: seq<(string, string)>,
    reviews: seq<ReviewRow>)

  const NoRows := Rows([], [], [], [])

  function Plus(a: Rows, b: Rows): Rows {
    Rows(a.products + b.products, a.memberships + b.memberships, a.related + b.related, a.reviews + b.reviews)
  }

  /** Everything one accepted record adds to the buffers. */
  function RowsOf(p: Product, oldToNew: map<nat, nat>): Rows
    requires Accepted(p)
  {
    var asin := p.asin.value;
    Rows([ProductRowOf(p)], MembershipRows(asin, p.categories, oldToNew),
         RelatedRows(asin, p.similar), ReviewRows(asin, p.reviews))
  }

  /** Everything a sequence of records adds, skipping those without an asin. */
  function RowsOfAll(ps: seq<Product>, oldToNew: map<nat, nat>): Rows {
    if ps == [] then NoRows
    else
      var p := ps[|ps| - 1];
      Plus(RowsOfAll(ps[..|ps| - 1], oldToNew), if Accepted(p) then RowsOf(p, oldToNew) else NoRows)
  }

  /** prod_count after a sequence of records. */
  function AcceptedCount(ps: seq<Product>): nat {
    if ps == [] then 0 else AcceptedCount(ps[..|ps| - 1]) + if Accepted(ps[|ps| - 1]) then 1 else 0
  }

  // ---------------------------------------------------------------------
  // Flushing

  /** A statement, sent only when it has rows to write. */
  function IfRows(e: Event): seq<Event> {
    if EventRows(e) == NoRows then [] else [e]
  }

  /** flush_batches: products, memberships, related pairs and reviews, each
      only when its buffer is non-empty, then one commit. */
  function FlushEvents(b: Rows): seq<Event> {
    IfRows(ProductsUpserted(b.products))
    + IfRows(MembershipsInserted(b.memberships))
    + IfRows(RelatedInserted(b.related))
    + IfRows(ReviewsInserted(b.reviews))
    + [Committed]
  }

  /** The rows a statement writes. */
  function EventRows(e: Event): Rows {
    match e
    case ProductsUpserted(rows) => Rows(rows, [], [], [])
    case MembershipsInserted(pairs) => Rows([], pairs, [], [])
    case RelatedInserted(pairs) => Rows([], [], pairs, [])
    case ReviewsInserted(rows) => Rows([], [], [], rows)
    case _ => NoRows
  }

  /** All the rows of a log, kind by kind, in the order they were sent. */
  function Written(log: seq<Event>): Rows {
    if log == [] then NoRows else Plus(Written(log[..|log| - 1]), EventRows(log[|log| - 1]))
  }

  function Commits(log: seq<Event>): nat {
    if log == [] then 0 else Commits(log[..|log| - 1]) + if log[|log| - 1] == Committed then 1 else 0
  }

  lemma PlusAssoc(a: Rows, b: Rows, c: Rows)
    ensures Plus(Plus(a, b), c) == Plus(a, Plus(b, c))
  {
    assert (a.products + b.products) + c.products == a.products + (b.products + c.products);
    assert (a.memberships + b.memberships) + c.memberships == a.memberships + (b.memberships + c.memberships);
    assert (a.related + b.related) + c.related == a.related + (b.related + c.related);
    assert (a.reviews + b.reviews) + c.reviews == a.reviews + (b.reviews + c.reviews);
  }

  lemma PlusNoRows(a: Rows)
    ensures Plus(a, NoRows) == a && Plus(NoRows, a) == a
  {
    assert a.products + [] == a.products && [] + a.products == a.products;
    assert a.memberships + [] == a.memberships && [] + a.memberships == a.memberships;
    assert a.related + [] == a.related && [] + a.related == a.related;
    assert a.reviews + [] == a.reviews && [] + a.reviews == a.reviews;
  }

  lemma {:induction false} WrittenAppend(a: seq<Event>, b: seq<Event>)
    ensures Written(a + b) == Plus(Written(a), Written(b))
    ensures Commits(a + b) == Commits(a) + Commits(b)
    decreases |b|
  {
    if b == [] {
      assert a + b == a;
      PlusNoRows(Written(a));
    } else {
      var b' := b[..|b| - 1];
      var e := b[|b| - 1];
      assert (a + b)[..|a + b| - 1] == a + b';
      assert (a + b)[|a + b| - 1] == e;
      WrittenAppend(a, b');
      PlusAssoc(Written(a), Written(b'), EventRows(e));
    }
  }

  lemma WrittenPart(e: Event)
    requires e != Committed
    ensures Written(IfRows(e)) == EventRows(e)
    ensures Commits(IfRows(e)) == 0
  {
    if EventRows(e) != NoRows {
      assert [e][..0] == [];
      PlusNoRows(EventRows(e));
    }
  }

  /** A flush writes exactly the buffered rows, under exactly one commit. */
  lemma FlushWrites(b: Rows)
    ensures Written(FlushEvents(b)) == b
    ensures Commits(FlushEvents(b)) == 1
  {
    var e0 := IfRows(ProductsUpserted(b.products));
    var e1 := IfRows(MembershipsInserted(b.memberships));
    var e2 := IfRows(RelatedInserted(b.related));
    var e3 := IfRows(ReviewsInserted(b.reviews));
    WrittenPart(ProductsUpserted(b.products));
    WrittenPart(MembershipsInserted(b.memberships));
    WrittenPart(RelatedInserted(b.related));
    WrittenPart(ReviewsInserted(b.reviews));
    assert [Committed][..0] == [];
    PlusNoRows(NoRows);
    WrittenAppend(e0, e1);
    WrittenAppend(e0 + e1, e2);
    WrittenAppend(e0 + e1 + e2, e3);
    WrittenAppend(e0 + e1 + e2 + e3, [Committed]);
    FourKinds(b);
  }

  /** The four single-kind parts of a buffer add up to it. */
  lemma FourKinds(b: Rows)
    ensures Plus(Plus(Plus(Plus(Rows(b.products, [], [], []), Rows([], b.memberships, [], [])),
      Rows([], [], b.related, [])), Rows([], [], [], b.reviews)), NoRows) == b
  {
    assert b.products + [] + [] + [] + [] == b.products;
    assert [] + b.memberships + [] + [] + [] == b.memberships;
    assert [] + [] + b.related + [] + [] == b.related;
    assert [] + [] + [] + b.reviews + [] == b.reviews;
  }

  /** A flush ends with its commit, sends no statement for an empty buffer,
      and sends the product rows first, before any row that refers to them. */
  lemma FlushLayout(b: Rows)
    ensures FlushEvents(b)[|FlushEvents(b)| - 1] == Committed
    ensures forall i :: 0 <= i < |FlushEvents(b)| - 1 ==>
      FlushEvents(b)[i] != Committed && EventRows(FlushEvents(b)[i]) != NoRows
    ensures b.products != [] ==> FlushEvents(b)[0] == ProductsUpserted(b.products)
    ensures b == NoRows ==> FlushEvents(b) == [Committed]
  {
  }

  // ---------------------------------------------------------------------
  // The loop over the records

  /** The loop's variables: prod_count, the four buffers and the statements sent so far. */
  datatype LoadState = LoadState(count: nat, buf: Rows, log: seq<Event>)

  /** One record: skip it without an asin; otherwise buffer its rows and
      flush when prod_count reaches a multiple of the batch size. */
  function Accept(st: LoadState, p: Product, oldToNew: map<nat, nat>, size: nat): LoadState
    requires size > 0
  {
    if !Accepted(p) then st else Buffered(st, RowsOf(p, oldToNew), size)
  }

  /** Counting one record and buffering its rows, then flushing when the
      count reaches a multiple of the batch size. */
  function Buffered(st: LoadState, rows: Rows, size: nat): LoadState
    requires size > 0
  {
    var count := st.count + 1;
    var buf := Plus(st.buf, rows);
    if count % size == 0 then LoadState(count, NoRows, st.log + FlushEvents(buf))
    else LoadState(count, buf, st.log)
  }

  function Feed(ps: seq<Product>, oldToNew: map<nat, nat>, size: nat): LoadState
    requires size > 0
  {
    if ps == [] then LoadState(0, NoRows, [])
    else Accept(Feed(ps[..|ps| - 1], oldToNew, size), ps[|ps| - 1], oldToNew, size)
  }

  /** The statements process_products_and_reviews sends: the loop's
      flushes, then the final flush unless parse_snap raised. */
  function LoadLog(parsed: Parsed, oldToNew: map<nat, nat>, size: nat): seq<Event>
    requires size > 0
  {
    var st := Feed(parsed.products, oldToNew, size);
    if parsed.failed then st.log else st.log + FlushEvents(st.buf)
  }

  /** Euclidean division has a unique quotient and remainder. */
  lemma DivUnique(x: int, d: int, q: int, r: int)
    requires d > 0 && 0 <= r < d && x == q * d + r
    ensures x / d == q && x % d == r
  {
    var q2 := x / d;
    var r2 := x % d;
    assert (q - q2) * d == r2 - r;
    if q - q2 >= 1 {
      MulAtLeast(q - q2, d);
    } else if q2 - q >= 1 {
      MulAtLeast(q2 - q, d);
    }
  }

  lemma MulAtLeast(a: int, d: int)
    requires a >= 1 && d > 0
    ensures a * d >= d
  {
  }

  /** The loop's bookkeeping, free of division: the rows written and the
      rows buffered make up all rows so far, and prod_count is the number of
      commits times the batch size plus the number of buffered products. */
  ghost predicate Tracks(st: LoadState, all: Rows, size: nat) {
    && Plus(Written(st.log), st.buf) == all
    && Commits(st.log) * size + |st.buf.products| == st.count
    && |st.buf.products| < size
  }

  lemma AcceptTracks(st: LoadState, p: Product, oldToNew: map<nat, nat>, size: nat, all: Rows)
    requires size > 0 && Tracks(st, all, size)
    ensures Tracks(Accept(st, p, oldToNew, size), Plus(all, if Accepted(p) then RowsOf(p, oldToNew) else NoRows), size)
    ensures Accept(st, p, oldToNew, size).count == st.count + if Accepted(p) then 1 else 0
  {
    if !Accepted(p) {
      PlusNoRows(all);
    } else if |st.buf.products| + 1 < size {
      BufferOne(st, RowsOf(p, oldToNew), size, all);
    } else {
      FlushOne(st, RowsOf(p, oldToNew), size, all);
    }
  }

  /** prod_count % batch_size reaches 0 exactly when the buffer fills up. */
  lemma FlushPoint(count: nat, commits: nat, buffered: nat, size: nat)
    requires size > 0 && buffered < size && count == commits * size + buffered
    ensures (count + 1) % size == 0 <==> buffered + 1 == size
    ensures buffered + 1 == size ==> count + 1 == (commits + 1) * size
  {
    if buffered + 1 < size {
      DivUnique(count + 1, size, commits, buffered + 1);
    } else {
      DivUnique(count + 1, size, commits + 1, 0);
    }
  }

  /** A record that does not complete a batch stays buffered. */
  lemma BufferOne(st: LoadState, rows: Rows, size: nat, all: Rows)
    requires size > 0 && Tracks(st, all, size) && |rows.products| == 1
    requires |st.buf.products| + 1 < size
    ensures Tracks(Buffered(st, rows, size), Plus(all, rows), size)
    ensures Buffered(st, rows, size).count == st.count + 1
  {
    assert (st.count + 1) % size != 0 by {
      FlushPoint(st.count, Commits(st.log), |st.buf.products|, size);
    }
    BufferTracks(st, rows, size, all);
  }

  lemma BufferTracks(st: LoadState, rows: Rows, size: nat, all: Rows)
    requires size > 0 && Tracks(st, all, size)
    requires |rows.products| == 1 && |st.buf.products| + 1 < size
    ensures Tracks(LoadState(st.count + 1, Plus(st.buf, rows), st.log), Plus(all, rows), size)
  {
    PlusAssoc(Written(st.log), st.buf, rows);
  }

  /** A record that completes a batch is flushed with it. */
  lemma FlushOne(st: LoadState, rows: Rows, size: nat, all: Rows)
    requires size > 0 && Tracks(st, all, size) && |rows.products| == 1
    requires |st.buf.products| + 1 == size
    ensures Tracks(Buffered(st, rows, size), Plus(all, rows), size)
    ensures Buffered(st, rows, size).count == st.count + 1
  {
    assert (st.count + 1) % size == 0 && st.count + 1 == (Commits(st.log) + 1) * size by {
      FlushPoint(st.count, Commits(st.log), |st.buf.products|, size);
    }
    FlushTracks(st, rows, size, all);
  }

  lemma FlushTracks(st: LoadState, rows: Rows, size: nat, all: Rows)
    requires size > 0 && Tracks(st, all, size)
    requires st.count + 1 == (Commits(st.log) + 1) * size
    ensures Tracks(LoadState(st.count + 1, NoRows, st.log + FlushEvents(Plus(st.buf, rows))), Plus(all, rows), size)
  {
    var buf := Plus(st.buf, rows);
    var w := Written(st.log);
    PlusAssoc(w, st.buf, rows);
    WrittenAppend(st.log, FlushEvents(buf));
    FlushWrites(buf);
    PlusNoRows(Plus(w, buf));
  }

  /** What the loop has done after a prefix of the records: every row of the
      accepted records is either written or still buffered, and prod_count
      counts the accepted records. */
  lemma {:induction false} FeedInvariant(ps: seq<Product>, oldToNew: map<nat, nat>, size: nat)
    requires size > 0
    ensures Tracks(Feed(ps, oldToNew, size), RowsOfAll(ps, oldToNew), size)
    ensures Feed(ps, oldToNew, size).count == AcceptedCount(ps)
  {
    if ps == [] {
      PlusNoRows(NoRows);
    } else {
      var ps' := ps[..|ps| - 1];
      FeedInvariant(ps', oldToNew, size);
      AcceptTracks(Feed(ps', oldToNew, size), ps[|ps| - 1], oldToNew, size, RowsOfAll(ps', oldToNew));
    }
  }

  /** After the loop the buffer holds the last prod_count % batch_size
      products, and there has been one commit per multiple of the batch size. */
  lemma FeedCounts(ps: seq<Product>, oldToNew: map<nat, nat>, size: nat)
    requires size > 0
    ensures var st := Feed(ps, oldToNew, size);
      && Plus(Written(st.log), st.buf) == RowsOfAll(ps, oldToNew)
      && |st.buf.products| == AcceptedCount(ps) % size
      && Commits(st.log) == AcceptedCount(ps) / size
  {
    FeedInvariant(ps, oldToNew, size);
    var st := Feed(ps, oldToNew, size);
    DivUnique(st.count, size, Commits(st.log), |st.buf.products|);
  }

  /** A statement of the record pass: it writes products, links or reviews,
      or commits; it never touches Categories. */
  predicate RecordEvent(e: Event) {
    !e.NamesInserted? && !e.ParentsUpdated?
  }

  ghost predicate RecordEvents(es: seq<Event>) {
    forall i :: 0 <= i < |es| ==> RecordEvent(es[i])
  }

  lemma {:induction false} RecordEventsKeepCategories(t: Tables, es: seq<Event>)
    requires RecordEvents(es)
    ensures var t' := ApplyAll(t, es); t'.names == t.names && t'.next == t.next && t'.parent == t.parent
    decreases |es|
  {
    if es != [] {
      RecordEventsKeepCategories(Apply(t, es[0]), es[1..]);
    }
  }

  lemma FlushRecordEvents(b: Rows)
    ensures RecordEvents(FlushEvents(b))
  {
    var f := FlushEvents(b);
    forall i | 0 <= i < |f| ensures RecordEvent(f[i]) {
      FlushLayout(b);
    }
  }

  lemma {:induction false} FeedRecordEvents(ps: seq<Product>, oldToNew: map<nat, nat>, size: nat)
    requires size > 0
    ensures RecordEvents(Feed(ps, oldToNew, size).log)
    decreases |ps|
  {
    if ps != [] {
      var st := Feed(ps[..|ps| - 1], oldToNew, size);
      FeedRecordEvents(ps[..|ps| - 1], oldToNew, size);
      if Accepted(ps[|ps| - 1]) {
        FlushRecordEvents(Plus(st.buf, RowsOf(ps[|ps| - 1], oldToNew)));
      }
    }
  }

  /** The record pass leaves the Categories table as it found it: its names,
      their ids, the SERIAL sequence and the parent links. */
  lemma LoadLogKeepsCategories(parsed: Parsed, oldToNew: map<nat, nat>, size: nat, t: Tables)
    requires size > 0
    ensures var t' := ApplyAll(t, LoadLog(parsed, oldToNew, size));
      t'.names == t.names && t'.next == t.next && t'.parent == t.parent
  {
    var st := Feed(parsed.products, oldToNew, size);
    FeedRecordEvents(parsed.products, oldToNew, size);
    FlushRecordEvents(st.buf);
    RecordEventsKeepCategories(t, LoadLog(parsed, oldToNew, size));
  }

  /** When parse_snap ends normally, every row of every record with an asin
      is written exactly once, in order, under one commit per multiple of the
      batch size plus the final one. */
  lemma LoadWritesEverything(parsed: Parsed, oldToNew: map<nat, nat>, size: nat)
    requires size > 0 && !parsed.failed
    ensures Written(LoadLog(parsed, oldToNew, size)) == RowsOfAll(parsed.products, oldToNew)
    ensures Commits(LoadLog(parsed, oldToNew, size)) == AcceptedCount(parsed.products) / size + 1
  {
    var st := Feed(parsed.products, oldToNew, size);
    FeedCounts(parsed.products, oldToNew, size);
    WrittenAppend(st.log, FlushEvents(st.buf));
    FlushWrites(st.buf);
  }

  /** When parse_snap raises, there is no final flush: the product rows of
      the last prod_count % batch_size accepted records are never sent, and
      what was sent is a prefix of each kind of row. */
  lemma FailedLoadDropsTail(parsed: Parsed, oldToNew: map<nat, nat>, size: nat)
    requires size > 0 && parsed.failed
    ensures var all := RowsOfAll(parsed.products, oldToNew);
      var w := Written(LoadLog(parsed, oldToNew, size));
      var n := AcceptedCount(parsed.products);
      && |all.products| == n
      && w.products == all.products[..n - n % size]
      && w.memberships <= all.memberships
      && w.related <= all.related
      && w.reviews <= all.reviews
    ensures Commits(LoadLog(parsed, oldToNew, size)) == AcceptedCount(parsed.products) / size
  {
    FeedCounts(parsed.products, oldToNew, size);
    ProductRowCount(parsed.products, oldToNew);
  }

  /** One product row per accepted record. */
  lemma {:induction false} ProductRowCount(ps: seq<Product>, oldToNew: map<nat, nat>)
    ensures |RowsOfAll(ps, oldToNew).products| == AcceptedCount(ps)
  {
    if ps != [] {
      ProductRowCount(ps[..|ps| - 1], oldToNew);
    }
  }

  /** The product rows are exactly those of the records with an asin: a
      record without one contributes nothing, and one with an empty title is
      still loaded. */
  lemma {:induction false} ProductRowsExact(ps: seq<Product>, oldToNew: map<nat, nat>)
    ensures forall r :: r in RowsOfAll(ps, oldToNew).products <==>
      exists k :: 0 <= k < |ps| && Accepted(ps[k]) && r == ProductRowOf(ps[k])
  {
    if ps != [] {
      var ps' := ps[..|ps| - 1];
      ProductRowsExact(ps', oldToNew);
      forall r ensures r in RowsOfAll(ps, oldToNew).products <==>
        exists k :: 0 <= k < |ps| && Accepted(ps[k]) && r == ProductRowOf(ps[k])
      {
        if exists k :: 0 <= k < |ps| && Accepted(ps[k]) && r == ProductRowOf(ps[k]) {
          var k :| 0 <= k < |ps| && Accepted(ps[k]) && r == ProductRowOf(ps[k]);
          if k < |ps| - 1 {
            assert ps'[k] == ps[k];
          }
        }
        if exists k :: 0 <= k < |ps'| && Accepted(ps'[k]) && r == ProductRowOf(ps'[k]) {
          var k :| 0 <= k < |ps'| && Accepted(ps'[k]) && r == ProductRowOf(ps'[k]);
          assert ps[k] == ps'[k];
        }
      }
    }
  }

  // ---------------------------------------------------------------------
  // Properties of one record's rows

  /** The product row: total_reviews is the number of parsed reviews, the
      average is absent exactly when there are none and is otherwise the
      rating sum over that count, qntd_downloads is 0, and the other columns
      are the parsed fields. */
  lemma ProductRowFields(p: Product)
    requires Accepted(p)
    ensures var r := ProductRowOf(p);
      && r.sourceId == p.id && Some(r.asin) == p.asin && r.title == p.title
      && r.group == p.group && r.salesrank == p.salesrank
      && r.totalReviews == |p.reviews|
      && (r.avgRating.None? <==> p.reviews == [])
      && (r.avgRating.Some? ==> r.avgRating.value.count == |p.reviews| && r.avgRating.value.sum == RatingSum(p.reviews))
      && r.downloads == 0
  {
  }

  /** A membership row is emitted exactly for each category whose old id is
      mapped, with the record's asin and the new id. */
  lemma {:induction false} MembershipRowsExact(asin: string, cats: seq<CatEntry>, oldToNew: map<nat, nat>)
    ensures |MembershipRows(asin, cats, oldToNew)| <= |cats|
    ensures forall row :: row in MembershipRows(asin, cats, oldToNew) <==>
      row.0 == asin && exists k :: 0 <= k < |cats| && cats[k].oldId in oldToNew && oldToNew[cats[k].oldId] == row.1
  {
    if cats != [] {
      var cs := cats[..|cats| - 1];
      MembershipRowsExact(asin, cs, oldToNew);
      forall row ensures row in MembershipRows(asin, cats, oldToNew) <==>
        row.0 == asin && exists k :: 0 <= k < |cats| && cats[k].oldId in oldToNew && oldToNew[cats[k].oldId] == row.1
      {
        if row.0 == asin && exists k :: 0 <= k < |cats| && cats[k].oldId in oldToNew && oldToNew[cats[k].oldId] == row.1 {
          var k :| 0 <= k < |cats| && cats[k].oldId in oldToNew && oldToNew[cats[k].oldId] == row.1;
          if k < |cats| - 1 {
            assert cs[k] == cats[k];
          }
        }
        if row.0 == asin && exists k :: 0 <= k < |cs| && cs[k].oldId in oldToNew && oldToNew[cs[k].oldId] == row.1 {
          var k :| 0 <= k < |cs| && cs[k].oldId in oldToNew && oldToNew[cs[k].oldId] == row.1;
          assert cats[k] == cs[k];
        }
      }
    }
  }

  /** The pair for two different asins is ordered strictly, smaller first,
      and holds both. */
  lemma CanonicalOrdered(a: string, b: string)
    requires a != b
    ensures LexLess(Canonical(a, b).0, Canonical(a, b).1)
    ensures {Canonical(a, b).0, Canonical(a, b).1} == {a, b}
  {
    LexLessTotal(a, b);
  }

  /** Every related row pairs the record's asin with one of its similar asins
      that is non-empty and different from it, smaller asin first; and every
      such similar asin yields its pair. No row depends on which asins are
      loaded. */
  lemma {:induction false} RelatedRowsExact(asin: string, sims: seq<string>)
    ensures forall row :: row in RelatedRows(asin, sims) ==>
      LexLess(row.0, row.1) && exists k :: 0 <= k < |sims| && sims[k] != [] && sims[k] != asin && row == Canonical(asin, sims[k])
    ensures forall k :: 0 <= k < |sims| && sims[k] != [] && sims[k] != asin ==> Canonical(asin, sims[k]) in RelatedRows(asin, sims)
  {
    if sims != [] {
      var ss := sims[..|sims| - 1];
      var sim := sims[|sims| - 1];
      RelatedRowsExact(asin, ss);
      if sim != [] && sim != asin {
        CanonicalOrdered(asin, sim);
      }
      forall row | row in RelatedRows(asin, sims)
        ensures LexLess(row.0, row.1) && exists k :: 0 <= k < |sims| && sims[k] != [] && sims[k] != asin && row == Canonical(asin, sims[k])
      {
        if row in RelatedRows(asin, ss) {
          var k :| 0 <= k < |ss| && ss[k] != [] && ss[k] != asin && row == Canonical(asin, ss[k]);
          assert sims[k] == ss[k];
        } else {
          assert row == Canonical(asin, sim);
        }
      }
      forall k | 0 <= k < |sims| - 1 && sims[k] != [] && sims[k] != asin
        ensures Canonical(asin, sims[k]) in RelatedRows(asin, sims)
      {
        assert ss[k] == sims[k];
      }
    }
  }

  /** One review row per parsed review, in order, tied to the record's asin. */
  lemma {:induction false} ReviewRowsInOrder(asin: string, rs: seq<Review>)
    ensures |ReviewRows(asin, rs)| == |rs|
    ensures forall k :: 0 <= k < |rs| ==>
      ReviewRows(asin, rs)[k] == ReviewRow(asin, rs[k].customer, rs[k].rating, rs[k].date, rs[k].votes, rs[k].helpful)
  {
    if rs != [] {
      ReviewRowsInOrder(asin, rs[..|rs| - 1]);
    }
  }

  /** Related pairs are not checked against the loaded products, and a
      missing title does not drop a record: a record with asin "A", no title
      and similar asin "B" yields its product row and the pair ("A", "B")
      whether or not "B" is ever loaded. */
  lemma RelatedNotFiltered()
    ensures var p := Product(1, Some("A"), None, None, None, ["B"], [], [], 1, 0, 0, 0);
      && Accepted(p)
      && RowsOf(p, map[]) == Rows([ProductRow(1, "A", None, None, None, 0, None, 0)], [], [("A", "B")], [])
  {
    assert ["B"][..0] == [];
    assert LexLess("A", "B");
  }

  // ---------------------------------------------------------------------
  // The imperative loader

  /** The four row lists process_products_and_reviews keeps between flushes. */
  class Buffers {
    var products: seq<ProductRow>
    var memberships: seq<(string, nat)>
    var related: seq<(string, string)>
    var reviews: seq<ReviewRow>

    function Contents(): Rows
      reads this
    {
      Rows(products, memberships, related, reviews)
    }

    constructor ()
      ensures Contents() == NoRows
    {
      products := [];
      memberships := [];
      related := [];
      reviews := [];
    }

    /** flush_batches: send each non-empty buffer, products first, empty it,
        then commit. */
    method Flush(db: Store)
      modifies this, db
      ensures Contents() == NoRows
      ensures db.log == old(db.log) + FlushEvents(old(Contents()))
      ensures db.tables == ApplyAll(old(db.tables), FlushEvents(old(Contents())))
    {
      ghost var b := Contents();
      ghost var t0 := db.tables;
      ghost var log0 := db.log;
      ghost var sent: seq<Event> := [];
      assert log0 + sent == log0;
      sent := SendIfAny(db, ProductsUpserted(products), t0, log0, sent);
      products := [];
      sent := SendIfAny(db, MembershipsInserted(memberships), t0, log0, sent);
      memberships := [];
      sent := SendIfAny(db, RelatedInserted(related), t0, log0, sent);
      related := [];
      sent := SendIfAny(db, ReviewsInserted(reviews), t0, log0, sent);
      reviews := [];
      sent := Send(db, Committed, t0, log0, sent);
      assert sent == FlushEvents(b);
    }

    /** The body of the loop for one record with an asin: buffer its product
        row, its mapped categories, its related pairs and its reviews. */
    method Add(p: Product, oldToNew: map<nat, nat>)
      requires Accepted(p)
      modifies this
      ensures Contents() == Plus(old(Contents()), RowsOf(p, oldToNew))
    {
      var asin := p.asin.value;
      var totalReviews := |p.reviews|;
      var avgRating: Option<Ratio> := None;
      if totalReviews > 0 {
        var s := SumRatings(p.reviews);
        avgRating := Some(Ratio(s, totalReviews));
      }
      products := products + [ProductRow(p.id, asin, p.title, p.group, p.salesrank, totalReviews, avgRating, 0)];
      var cats := MembershipRowsOf(asin, p.categories, oldToNew);
      memberships := memberships + cats;
      var pairs := RelatedRowsOf(asin, p.similar);
      related := related + pairs;
      var rows := ReviewRowsOf(asin, p.reviews);
      reviews := reviews + rows;
    }
  }

  /** `if batch: cur.executemany(sql, batch)`: a statement of a flush, sent
      only when its buffer is non-empty. */
  method SendIfAny(db: Store, e: Event, ghost t0: Tables, ghost log0: seq<Event>, ghost sent: seq<Event>)
    returns (ghost sent': seq<Event>)
    requires e != Committed
    requires db.log == log0 + sent && db.tables == ApplyAll(t0, sent)
    modifies db
    ensures sent' == sent + IfRows(e)
    ensures db.log == log0 + sent' && db.tables == ApplyAll(t0, sent')
  {
    if EventRows(e) != NoRows {
      sent' := Send(db, e, t0, log0, sent);
    } else {
      sent' := sent;
      assert sent + [] == sent;
    }
  }

  /** One statement of a flush (or its commit), with the statements of the
      flush sent before it. */
  method Send(db: Store, e: Event, ghost t0: Tables, ghost log0: seq<Event>, ghost sent: seq<Event>)
    returns (ghost sent': seq<Event>)
    requires db.log == log0 + sent && db.tables == ApplyAll(t0, sent)
    modifies db
    ensures sent' == sent + [e]
    ensures db.log == log0 + sent' && db.tables == ApplyAll(t0, sent')
  {
    if e == Committed {
      db.Commit();
    } else {
      db.Execute(e);
    }
    sent' := sent + [e];
    ApplyAllAppend(t0, sent, [e]);
    assert [e][1..] == [];
  }

  method SumRatings(rs: seq<Review>) returns (s: nat)
    ensures s == RatingSum(rs)
  {
    s := 0;
    var i := 0;
    while i < |rs|
      invariant 0 <= i <= |rs|
      invariant s == RatingSum(rs[..i])
    {
      assert rs[..i + 1][..i] == rs[..i];
      s := s + rs[i].rating;
      i := i + 1;
    }
    assert rs[..i] == rs;
  }

  method MembershipRowsOf(asin: string, cats: seq<CatEntry>, oldToNew: map<nat, nat>) returns (rows: seq<(string, nat)>)
    ensures rows == MembershipRows(asin, cats, oldToNew)
  {
    rows := [];
    var i := 0;
    while i < |cats|
      invariant 0 <= i <= |cats|
      invariant rows == MembershipRows(asin, cats[..i], oldToNew)
    {
      assert cats[..i + 1][..i] == cats[..i];
      var oldId := cats[i].oldId;
      if oldId in oldToNew {
        rows := rows + [(asin, oldToNew[oldId])];
      }
      i := i + 1;
    }
    assert cats[..i] == cats;
  }

  method RelatedRowsOf(asin: string, sims: seq<string>) returns (rows: seq<(string, string)>)
    ensures rows == RelatedRows(asin, sims)
  {
    rows := [];
    var i := 0;
    while i < |sims|
      invariant 0 <= i <= |sims|
      invariant rows == RelatedRows(asin, sims[..i])
    {
      assert sims[..i + 1][..i] == sims[..i];
      var sim := sims[i];
      if sim != [] && sim != asin {
        var pair := if LexLess(asin, sim) then (asin, sim) else (sim, asin);
        rows := rows + [pair];
      }
      i := i + 1;
    }
    assert sims[..i] == sims;
  }

  method ReviewRowsOf(asin: string, rs: seq<Review>) returns (rows: seq<ReviewRow>)
    ensures rows == ReviewRows(asin, rs)
  {
    rows := [];
    var i := 0;
    while i < |rs|
      invariant 0 <= i <= |rs|
      invariant rows == ReviewRows(asin, rs[..i])
    {
      assert rs[..i + 1][..i] == rs[..i];
      var r := rs[i];
      rows := rows + [ReviewRow(asin, r.customer, r.rating, r.date, r.votes, r.helpful)];
      i := i + 1;
    }
    assert rs[..i] == rs;
  }

  /** process_products_and_reviews: parse the corpus, buffer the rows of
      every record with an asin, flush at every multiple of the batch size
      and, unless parse_snap raised, once at the end. The result is false
      when the ValueError of parse_snap ends the pass. */
  method ProcessProducts(db: Store, lines: seq<string>, rec: Recognisers, oldToNew: map<nat, nat>, batchSize: nat)
    returns (ok: bool)
    requires batchSize > 0
    modifies db
    ensures ok == !ParseSnapSpec(lines, rec).failed
    ensures db.log == old(db.log) + LoadLog(ParseSnapSpec(lines, rec), oldToNew, batchSize)
    ensures db.tables == ApplyAll(old(db.tables), LoadLog(ParseSnapSpec(lines, rec), oldToNew, batchSize))
  {
    var parsed := ParseSnap(lines, rec);
    var buffers := new Buffers();
    var prodCount := 0;
    ghost var log0 := db.log;
    ghost var t0 := db.tables;
    ghost var sent: seq<Event> := [];
    assert log0 + sent == log0;
    var i := 0;
    while i < |parsed.products|
      invariant 0 <= i <= |parsed.products|
      invariant Feed(parsed.products[..i], oldToNew, batchSize) == LoadState(prodCount, buffers.Contents(), sent)
      invariant db.log == log0 + sent && db.tables == ApplyAll(t0, sent)
    {
      FeedStep(parsed.products, oldToNew, batchSize, i);
      prodCount, sent := HandleRecord(db, buffers, parsed.products[i], oldToNew, batchSize, prodCount, t0, log0, sent);
      i := i + 1;
    }
    assert parsed.products[..i] == parsed.products;
    if !parsed.failed {
      sent := FlushInLoop(db, buffers, t0, log0, sent);
    }
    ok := !parsed.failed;
  }

  /** One pass of the loop body: skip a record without an asin, otherwise
      buffer its rows, count it, and flush at a multiple of the batch size. */
  method HandleRecord(db: Store, buffers: Buffers, product: Product, oldToNew: map<nat, nat>, batchSize: nat,
                      prodCount: nat, ghost t0: Tables, ghost log0: seq<Event>, ghost sent: seq<Event>)
    returns (count: nat, ghost sent': seq<Event>)
    requires batchSize > 0
    requires db.log == log0 + sent && db.tables == ApplyAll(t0, sent)
    modifies db, buffers
    ensures LoadState(count, buffers.Contents(), sent')
         == Accept(LoadState(prodCount, old(buffers.Contents()), sent), product, oldToNew, batchSize)
    ensures db.log == log0 + sent' && db.tables == ApplyAll(t0, sent')
  {
    count := prodCount;
    sent' := sent;
    if product.asin.Some? && product.asin.value != [] {
      buffers.Add(product, oldToNew);
      count := count + 1;
      if count % batchSize == 0 {
        sent' := FlushInLoop(db, buffers, t0, log0, sent);
      }
    }
  }

  lemma FeedStep(ps: seq<Product>, oldToNew: map<nat, nat>, size: nat, i: nat)
    requires size > 0 && i < |ps|
    ensures Feed(ps[..i + 1], oldToNew, size) == Accept(Feed(ps[..i], oldToNew, size), ps[i], oldToNew, size)
  {
    assert ps[..i + 1][..i] == ps[..i];
  }

  /** A flush seen from the loop: the statements sent since the start grow by
      the flush's statements and the tables follow them. */
  method FlushInLoop(db: Store, buffers: Buffers, ghost t0: Tables, ghost log0: seq<Event>, ghost sent: seq<Event>)
    returns (ghost sent': seq<Event>)
    requires db.log == log0 + sent && db.tables == ApplyAll(t0, sent)
    modifies db, buffers
    ensures buffers.Contents() == NoRows
    ensures sent' == sent + FlushEvents(old(buffers.Contents()))
    ensures db.log == log0 + sent' && db.tables == ApplyAll(t0, sent')
  {
    ghost var es := FlushEvents(buffers.Contents());
    buffers.Flush(db);
    sent' := sent + es;
    assert db.log == log0 + sent';
    ApplyAllAppend(t0, sent, es);
  }

  /** main, steps 0 to 3: collect the categories, insert them, link their
      parents, then load the records with the default batch size. The log is
      the category statements followed by the record pass's; the record pass
      leaves every category name, its durable id and the parent links as the
      category load set them; the result is false exactly when parse_snap
      raised. */
  method LoadCorpus(db: Store, lines: seq<string>, rec: Recognisers)
    returns (ok: bool, cats: Collect.CatTable, oldToNew: map<nat, nat>)
    requires NamesValid(db.tables)
    modifies db
    ensures Collect.Valid(cats) && cats == Collect.Extracted(lines)
    ensures forall k :: k in oldToNew <==> k in cats.info
    ensures forall k :: k in cats.info ==>
      cats.info[k].name in db.tables.names && oldToNew[k] == db.tables.names[cats.info[k].name]
    ensures forall a, b :: a in cats.info && b in cats.info ==>
      (oldToNew[a] == oldToNew[b] <==> cats.info[a].name == cats.info[b].name)
    ensures db.tables.parent == CategoryLoad.CategoryTables(old(db.tables), cats, oldToNew).parent
    ensures ok == !ParseSnapSpec(lines, rec).failed
    ensures db.log == old(db.log) + CategoryLoad.CategoryLog(cats, oldToNew)
      + LoadLog(ParseSnapSpec(lines, rec), oldToNew, BATCH_SIZE)
    ensures db.tables == ApplyAll(CategoryLoad.CategoryTables(old(db.tables), cats, oldToNew),
      LoadLog(ParseSnapSpec(lines, rec), oldToNew, BATCH_SIZE))
  {
    cats, oldToNew := CategoryLoad.LoadCategories(db, lines);
    ghost var t1 := db.tables;
    ok := ProcessProducts(db, lines, rec, oldToNew, BATCH_SIZE);
    LoadLogKeepsCategories(ParseSnapSpec(lines, rec), oldToNew, BATCH_SIZE, t1);
  }
}
