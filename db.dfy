/** The relational store the loader writes to, reduced to what the loader can
    observe: the Categories table (a SERIAL id per unique name, and a parent
    id column), the Products table keyed by asin, the two link tables and
    the reviews table, plus the sequence of statements and commits sent to
    it. Each statement batch is one Event; its effect on the tables is Apply. */
module Db {
  import opened Text

  /** average_rating before rounding: the rating sum over the review count. */
  datatype Ratio = Ratio(sum: nat, count: nat)

  /** One row of Products: (source_id, asin, titulo, group_name, salesrank,
      total_reviews, average_rating, qntd_downloads). */
  datatype ProductRow = ProductRow(
    sourceId: int,
    asin: string,
    title: Option<string>,
    group: Option<string>,
    salesrank: Option<nat>,
    totalReviews: nat,
    avgRating: Option<Ratio>,
    downloads: nat)

  /** One row of reviews: (product_asin, customer_id, rating, review_date, votes, helpful). */
  datatype ReviewRow = ReviewRow(asin: string, customer: string, rating: nat, date: Option<string>, votes: nat, helpful: nat)

  /** One executemany call, or a commit. */
  datatype Event =
    | NamesInserted(names: seq<string>)
    | ParentsUpdated(updates: seq<(nat, nat)>)
    | ProductsUpserted(products: seq<ProductRow>)
    | MembershipsInserted(memberships: seq<(string, nat)>)
    | RelatedInserted(related: seq<(string, string)>)
    | ReviewsInserted(reviews: seq<ReviewRow>)
    | Committed

  /** The contents of the tables. `names` maps category_name to category_id;
      `next` is the id the next new name gets (the SERIAL sequence, advanced
      only when a row is added); `parent` holds the parent_id column of the
      categories that have one. */
  datatype Tables = Tables(
    names: map<string, nat>,
    next: nat,
    parent: map<nat, nat>,
    products: map<string, ProductRow>,
    memberships: set<(string, nat)>,
    related: set<(string, string)>,
    reviews: seq<ReviewRow>)

  /** category_id is a SERIAL key: every id is below the sequence's next
      value and no two names share one. */
  ghost predicate NamesValid(t: Tables) {
    && (forall n :: n in t.names ==> t.names[n] < t.next)
    && (forall a, b :: a in t.names && b in t.names && a != b ==> t.names[a] != t.names[b])
  }

  /** INSERT INTO Categories (category_name) VALUES (n) ON CONFLICT (category_name) DO NOTHING */
  function AddName(t: Tables, n: string): Tables {
    if n in t.names then t else t.(names := t.names[n := t.next], next := t.next + 1)
  }

  function AddNames(t: Tables, ns: seq<string>): Tables
    decreases |ns|
  {
    if ns == [] then t else AddNames(AddName(t, ns[0]), ns[1..])
  }

  /** Inserting names keeps the ids unique and never changes the id of a
      name already present. */
  lemma {:induction false} AddNamesKeeps(t: Tables, ns: seq<string>)
    requires NamesValid(t)
    ensures NamesValid(AddNames(t, ns))
    ensures forall n :: n in t.names ==> n in AddNames(t, ns).names && AddNames(t, ns).names[n] == t.names[n]
    decreases |ns|
  {
    if ns != [] {
      var t' := AddName(t, ns[0]);
      assert NamesValid(t');
      AddNamesKeeps(t', ns[1..]);
    }
  }

  /** After inserting, the table holds exactly the old names and the inserted ones. */
  lemma {:induction false} AddNamesHolds(t: Tables, ns: seq<string>)
    ensures forall n :: n in AddNames(t, ns).names <==> n in t.names || n in ns
    decreases |ns|
  {
    if ns != [] {
      AddNamesHolds(AddName(t, ns[0]), ns[1..]);
      assert forall n :: n in ns <==> n == ns[0] || n in ns[1..] by {
        assert ns == [ns[0]] + ns[1..];
      }
    }
  }

  /** Inserting names touches no other table. */
  lemma {:induction false} AddNamesOnlyNames(t: Tables, ns: seq<string>)
    ensures AddNames(t, ns).(names := t.names, next := t.next) == t
    decreases |ns|
  {
    if ns != [] {
      AddNamesOnlyNames(AddName(t, ns[0]), ns[1..]);
    }
  }

  /** UPDATE Categories SET parent_id = p WHERE category_id = c: no row
      changes when no category has id c. */
  function SetParent(t: Tables, pc: (nat, nat)): Tables {
    if pc.1 in t.names.Values then t.(parent := t.parent[pc.1 := pc.0]) else t
  }

  function SetParents(t: Tables, pcs: seq<(nat, nat)>): Tables
    decreases |pcs|
  {
    if pcs == [] then t else SetParents(SetParent(t, pcs[0]), pcs[1..])
  }

  /** Parent updates change only the parent_id column: the names, their ids
      and the SERIAL sequence stay as they were. */
  lemma {:induction false} SetParentsKeepsNames(t: Tables, pcs: seq<(nat, nat)>)
    ensures SetParents(t, pcs).(parent := t.parent) == t
    decreases |pcs|
  {
    if pcs != [] {
      SetParentsKeepsNames(SetParent(t, pcs[0]), pcs[1..]);
    }
  }

  /** INSERT INTO Products ... ON CONFLICT (asin) DO UPDATE: a new asin gets
      the whole row; an existing one takes the new titulo, group_name,
      salesrank, total_reviews and average_rating and keeps its source_id
      and qntd_downloads. */
  function Upsert(ps: map<string, ProductRow>, row: ProductRow): map<string, ProductRow> {
    if row.asin in ps then
      ps[row.asin := ps[row.asin].(title := row.title, group := row.group, salesrank := row.salesrank,
                                  totalReviews := row.totalReviews, avgRating := row.avgRating)]
    else ps[row.asin := row]
  }

  function UpsertAll(ps: map<string, ProductRow>, rows: seq<ProductRow>): map<string, ProductRow>
    decreases |rows|
  {
    if rows == [] then ps else UpsertAll(Upsert(ps, rows[0]), rows[1..])
  }

  /** The conflict policy on asin: the mutable columns come from the newest
      row, source_id and qntd_downloads from the row first inserted, and no
      other product changes. */
  lemma UpsertPolicy(ps: map<string, ProductRow>, row: ProductRow)
    ensures Upsert(ps, row).Keys == ps.Keys + {row.asin}
    ensures forall a :: a in ps && a != row.asin ==> Upsert(ps, row)[a] == ps[a]
    ensures var r := Upsert(ps, row)[row.asin];
      && r.asin == row.asin
      && r.title == row.title && r.group == row.group && r.salesrank == row.salesrank
      && r.totalReviews == row.totalReviews && r.avgRating == row.avgRating
      && r.sourceId == (if row.asin in ps then ps[row.asin].sourceId else row.sourceId)
      && r.downloads == (if row.asin in ps then ps[row.asin].downloads else row.downloads)
    requires row.asin in ps ==> ps[row.asin].asin == row.asin
  {
  }

  /** The effect of one statement batch on the tables. Link rows are
      inserted with ON CONFLICT DO NOTHING (set union); reviews have no
      conflict clause and are appended. */
  function Apply(t: Tables, e: Event): Tables {
    match e
    case NamesInserted(ns) => AddNames(t, ns)
    case ParentsUpdated(pcs) => SetParents(t, pcs)
    case ProductsUpserted(rows) => t.(products := UpsertAll(t.products, rows))
    case MembershipsInserted(pairs) => t.(memberships := t.memberships + set x | x in pairs)
    case RelatedInserted(pairs) => t.(related := t.related + set x | x in pairs)
    case ReviewsInserted(rows) => t.(reviews := t.reviews + rows)
    case Committed => t
  }

  function ApplyAll(t: Tables, es: seq<Event>): Tables
    decreases |es|
  {
    if es == [] then t else ApplyAll(Apply(t, es[0]), es[1..])
  }

  lemma {:induction false} ApplyAllAppend(t: Tables, a: seq<Event>, b: seq<Event>)
    ensures ApplyAll(t, a + b) == ApplyAll(ApplyAll(t, a), b)
    decreases |a|
  {
    if a == [] {
      assert a + b == b;
    } else {
      assert (a + b)[1..] == a[1..] + b;
      ApplyAllAppend(Apply(t, a[0]), a[1..], b);
    }
  }

  /** SELECT category_id, category_name FROM Categories WHERE category_name = ANY(batch):
      one row per name of the batch that the table holds, and no other. */
  function Selected(names: map<string, nat>, batch: seq<string>): (rows: seq<(nat, string)>)
    ensures forall r :: r in rows ==> r.1 in batch && r.1 in names && names[r.1] == r.0
    ensures forall n :: n in batch && n in names ==> (names[n], n) in rows
    decreases |batch|
  {
    if batch == [] then []
    else
      var rest := Selected(names, batch[1..]);
      if batch[0] in names then [(names[batch[0]], batch[0])] + rest else rest
  }

  /** The database connection: the tables and every statement batch and
      commit sent so far. */
  class Store {
    var tables: Tables
    var log: seq<Event>

    /** get_conn(): a connection to a database that holds whatever earlier
        runs left in it; nothing has been sent on it yet. */
    constructor (t: Tables)
      ensures tables == t && log == []
    {
      tables := t;
      log := [];
    }

    method Execute(e: Event)
      modifies this
      ensures tables == Apply(old(tables), e)
      ensures log == old(log) + [e]
    {
      tables := Apply(tables, e);
      log := log + [e];
    }

    /** conn.commit() */
    method Commit()
      modifies this
      ensures tables == old(tables)
      ensures log == old(log) + [Committed]
    {
      log := log + [Committed];
    }
  }
}
