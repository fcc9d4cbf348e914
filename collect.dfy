/** The first pass over the corpus (extract_all_categories): every category
    chain line contributes its entries to one table old_id -> {name,
    parent_old_id}, and the first entry seen for an old id wins. */
module Collect {
  import opened Text
  import opened CatPart

  datatype CatInfo = CatInfo(name: string, parent: Option<nat>)

  /** A Python dict from old id to CatInfo: its keys in insertion order and its entries. */
  datatype CatTable = CatTable(order: seq<nat>, info: map<nat, CatInfo>)

  const Empty := CatTable([], map[])

  ghost predicate Valid(t: CatTable) {
    && (forall i, j :: 0 <= i < j < |t.order| ==> t.order[i] != t.order[j])
    && (forall k :: k in t.info <==> k in t.order)
  }

  /** Every recorded parent is itself a key of the table. */
  ghost predicate ParentsRecorded(t: CatTable) {
    forall k :: k in t.info && t.info[k].parent.Some? ==> t.info[k].parent.value in t.info
  }

  /** `if old_id not in categories: categories[old_id] = {...}` */
  function Insert(t: CatTable, e: CatEntry): CatTable {
    if e.oldId in t.info then t
    else CatTable(t.order + [e.oldId], t.info[e.oldId := CatInfo(e.name, e.parent)])
  }

  function InsertAll(t: CatTable, es: seq<CatEntry>): CatTable
    decreases |es|
  {
    if es == [] then t else InsertAll(Insert(t, es[0]), es[1..])
  }

  /** The entries one raw line contributes: the chain of its stripped text,
      when that text contains both '|' and '['. */
  function LineEntries(raw: string): seq<CatEntry> {
    var line := Strip(raw);
    if '|' in line && '[' in line then ChainOf(line) else []
  }

  function AllEntries(lines: seq<string>): seq<CatEntry> {
    if lines == [] then [] else LineEntries(lines[0]) + AllEntries(lines[1..])
  }

  /** The ids an entry sequence mentions. */
  function Ids(es: seq<CatEntry>): set<nat> {
    set e | e in es :: e.oldId
  }

  /** extract_all_categories, as a specification. */
  function Extracted(lines: seq<string>): CatTable {
    InsertAll(Empty, AllEntries(lines))
  }

  /** extract_all_categories over the lines of the corpus. */
  method ExtractAllCategories(lines: seq<string>) returns (t: CatTable)
    ensures t == Extracted(lines)
  {
    t := Empty;
    var i := 0;
    while i < |lines|
      invariant 0 <= i <= |lines|
      invariant InsertAll(t, AllEntries(lines[i..])) == Extracted(lines)
    {
      var line := Strip(lines[i]);
      assert lines[i..] == [lines[i]] + lines[i + 1..];
      InsertAllAppend(t, LineEntries(lines[i]), AllEntries(lines[i + 1..]));
      if '|' in line && '[' in line {
        t := AddChain(t, FindAll(line));
      }
      i := i + 1;
    }
  }

  /** The inner loop of extract_all_categories over the matches of one line:
      record each id not seen before, then make it the next parent. */
  method AddChain(t0: CatTable, parts: seq<Part>) returns (t: CatTable)
    ensures t == InsertAll(t0, Chain(parts, None))
  {
    t := t0;
    var parentOld: Option<nat> := None;
    var j := 0;
    while j < |parts|
      invariant 0 <= j <= |parts|
      invariant InsertAll(t, Chain(parts[j..], parentOld)) == InsertAll(t0, Chain(parts, None))
    {
      var oldId := DigitsValue(parts[j].digits);
      var name := Strip(parts[j].name);
      InsertChainStep(t, parts[j..], parentOld);
      assert parts[j..][1..] == parts[j + 1..];
      if oldId !in t.info {
        t := CatTable(t.order + [oldId], t.info[oldId := CatInfo(name, parentOld)]);
      }
      parentOld := Some(oldId);
      j := j + 1;
    }
  }

  lemma InsertChainStep(t: CatTable, ps: seq<Part>, parent: Option<nat>)
    requires ps != []
    ensures InsertAll(t, Chain(ps, parent))
         == InsertAll(Insert(t, CatEntry(DigitsValue(ps[0].digits), Strip(ps[0].name), parent)),
                      Chain(ps[1..], Some(DigitsValue(ps[0].digits))))
  {
  }

  lemma {:induction false} InsertAllAppend(t: CatTable, a: seq<CatEntry>, b: seq<CatEntry>)
    ensures InsertAll(t, a + b) == InsertAll(InsertAll(t, a), b)
    decreases |a|
  {
    if a == [] {
      assert a + b == b;
    } else {
      assert (a + b)[1..] == a[1..] + b;
      InsertAllAppend(Insert(t, a[0]), a[1..], b);
    }
  }

  lemma {:induction false} AllEntriesAppend(a: seq<string>, b: seq<string>)
    ensures AllEntries(a + b) == AllEntries(a) + AllEntries(b)
  {
    if a == [] {
      assert a + b == b;
    } else {
      assert (a + b)[1..] == a[1..] + b;
      AllEntriesAppend(a[1..], b);
    }
  }

  /** Inserting keeps the table well formed, adds exactly the ids of the
      entries, and never changes an entry already present. */
  lemma {:induction false} InsertAllKeeps(t: CatTable, es: seq<CatEntry>)
    requires Valid(t)
    ensures Valid(InsertAll(t, es))
    ensures InsertAll(t, es).info.Keys == t.info.Keys + Ids(es)
    ensures forall k :: k in t.info ==> InsertAll(t, es).info[k] == t.info[k]
    decreases |es|
  {
    if es != [] {
      var t' := Insert(t, es[0]);
      InsertKeeps(t, es[0]);
      InsertAllKeeps(t', es[1..]);
      IdsCons(es);
    }
  }

  lemma IdsCons(es: seq<CatEntry>)
    requires es != []
    ensures Ids(es) == {es[0].oldId} + Ids(es[1..])
  {
    assert es == [es[0]] + es[1..];
  }

  lemma InsertKeeps(t: CatTable, e: CatEntry)
    requires Valid(t)
    ensures Valid(Insert(t, e))
    ensures Insert(t, e).info.Keys == t.info.Keys + {e.oldId}
    ensures forall k :: k in t.info ==> Insert(t, e).info[k] == t.info[k]
  {
  }

  /** The entry stored for an id is the one at its first occurrence. */
  lemma {:induction false} InsertAllFirst(t: CatTable, es: seq<CatEntry>, i: nat)
    requires Valid(t)
    requires i < |es| && es[i].oldId !in t.info
    requires forall m :: 0 <= m < i ==> es[m].oldId != es[i].oldId
    ensures es[i].oldId in InsertAll(t, es).info
    ensures InsertAll(t, es).info[es[i].oldId] == CatInfo(es[i].name, es[i].parent)
    decreases |es|
  {
    var t' := Insert(t, es[0]);
    InsertKeeps(t, es[0]);
    if i == 0 {
      InsertAllKeeps(t', es[1..]);
    } else {
      assert es[1..][i - 1] == es[i];
      InsertAllFirst(t', es[1..], i - 1);
    }
  }

  /** First occurrence wins across the whole first pass: the table holds
      exactly the ids of all chain entries, each with the name and parent of
      the first entry that carries it. */
  lemma ExtractedFirstWins(lines: seq<string>, i: nat)
    requires i < |AllEntries(lines)|
    requires forall m :: 0 <= m < i ==> AllEntries(lines)[m].oldId != AllEntries(lines)[i].oldId
    ensures Valid(Extracted(lines))
    ensures Extracted(lines).info.Keys == Ids(AllEntries(lines))
    ensures Extracted(lines).info[AllEntries(lines)[i].oldId]
         == CatInfo(AllEntries(lines)[i].name, AllEntries(lines)[i].parent)
  {
    InsertAllKeeps(Empty, AllEntries(lines));
    InsertAllFirst(Empty, AllEntries(lines), i);
  }

  /** A later line never overwrites an id recorded from earlier lines. */
  lemma LaterLinesNeverOverwrite(lines: seq<string>, more: seq<string>, k: nat)
    requires k in Extracted(lines).info
    ensures k in Extracted(lines + more).info
    ensures Extracted(lines + more).info[k] == Extracted(lines).info[k]
  {
    AllEntriesAppend(lines, more);
    InsertAllAppend(Empty, AllEntries(lines), AllEntries(more));
    InsertAllKeeps(Empty, AllEntries(lines));
    InsertAllKeeps(Extracted(lines), AllEntries(more));
  }

  /** Inserting a chain whose incoming parent is already recorded keeps every
      recorded parent recorded, and leaves the chain's ids recorded. */
  lemma {:induction false} ChainKeepsParents(t: CatTable, ps: seq<Part>, parent: Option<nat>)
    requires ParentsRecorded(t)
    requires parent.Some? ==> parent.value in t.info
    ensures ParentsRecorded(InsertAll(t, Chain(ps, parent)))
    ensures t.info.Keys <= InsertAll(t, Chain(ps, parent)).info.Keys
    decreases |ps|
  {
    if ps != [] {
      var id := DigitsValue(ps[0].digits);
      var e := CatEntry(id, Strip(ps[0].name), parent);
      assert Chain(ps, parent) == [e] + Chain(ps[1..], Some(id));
      var t' := Insert(t, e);
      InsertKeepsParents(t, e);
      ChainKeepsParents(t', ps[1..], Some(id));
    }
  }

  lemma InsertKeepsParents(t: CatTable, e: CatEntry)
    requires ParentsRecorded(t)
    requires e.parent.Some? ==> e.parent.value in t.info
    ensures ParentsRecorded(Insert(t, e))
    ensures t.info.Keys + {e.oldId} == Insert(t, e).info.Keys
  {
  }

  lemma {:induction false} LinesKeepParents(t: CatTable, lines: seq<string>)
    requires ParentsRecorded(t)
    ensures ParentsRecorded(InsertAll(t, AllEntries(lines)))
    decreases |lines|
  {
    if lines != [] {
      InsertAllAppend(t, LineEntries(lines[0]), AllEntries(lines[1..]));
      var line := Strip(lines[0]);
      if '|' in line && '[' in line {
        ChainKeepsParents(t, FindAll(line), None);
      }
      LinesKeepParents(InsertAll(t, LineEntries(lines[0])), lines[1..]);
    }
  }

  /** Every parent old id the first pass records is itself a recorded old id:
      a chain's parent is always the entry just before it on the same line. */
  lemma ExtractedParentsRecorded(lines: seq<string>)
    ensures ParentsRecorded(Extracted(lines))
  {
    LinesKeepParents(Empty, lines);
  }
}
