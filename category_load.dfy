/** Loading the category tree (insert_categories, update_parent_ids): the
    unique names go into Categories in slices of CATEGORY_BATCH, their
    durable ids are read back by name, every old id is mapped to the id of
    its name, and the parent links are rewritten with the durable ids. */
module CategoryLoad {
  import opened Text
  import opened Collect
  import opened Db

  const CATEGORY_BATCH: nat := 500

  // ---------------------------------------------------------------------
  // Slicing

  /** [xs[i:i + size] for i in range(0, len(xs), size)] */
  function Batches<T>(xs: seq<T>, size: nat): seq<seq<T>>
    requires size > 0
    decreases |xs|
  {
    if xs == [] then []
    else
      var k := if |xs| < size then |xs| else size;
      [xs[..k]] + Batches(xs[k..], size)
  }

  function Flatten<T>(bs: seq<seq<T>>): seq<T> {
    if bs == [] then [] else bs[0] + Flatten(bs[1..])
  }

  /** The slices cover the input exactly once, in order, and each holds
      between one and `size` elements. */
  lemma {:induction false} BatchesPartition<T>(xs: seq<T>, size: nat)
    requires size > 0
    ensures Flatten(Batches(xs, size)) == xs
    ensures forall j :: 0 <= j < |Batches(xs, size)| ==> 0 < |Batches(xs, size)[j]| <= size
    decreases |xs|
  {
    if xs != [] {
      var k := if |xs| < size then |xs| else size;
      BatchesPartition(xs[k..], size);
      var bs := Batches(xs, size);
      assert bs == [xs[..k]] + Batches(xs[k..], size);
      assert bs[1..] == Batches(xs[k..], size);
      assert xs == xs[..k] + xs[k..];
      forall j | 1 <= j < |bs| ensures 0 < |bs[j]| <= size {
        assert bs[j] == Batches(xs[k..], size)[j - 1];
      }
    }
  }

  /** Element j * size + p of the input, for p < size, is element p of slice
      j: every element falls in exactly one slice. */
  lemma {:induction false} BatchesIndex<T>(xs: seq<T>, size: nat, j: nat, p: nat)
    requires size > 0 && p < size && j * size + p < |xs|
    ensures j < |Batches(xs, size)|
    ensures p < |Batches(xs, size)[j]|
    ensures Batches(xs, size)[j][p] == xs[j * size + p]
    decreases j
  {
    var bs := Batches(xs, size);
    if j == 0 {
      var n := if |xs| < size then |xs| else size;
      assert bs == [xs[..n]] + Batches(xs[n..], size);
    } else {
      var q := (j - 1) * size;
      MulStep(j, size);
      assert size < |xs|;
      var rest := xs[size..];
      assert bs == [xs[..size]] + Batches(rest, size);
      BatchesIndex(rest, size, j - 1, p);
      assert rest[q + p] == xs[q + p + size];
    }
  }

  lemma MulStep(j: nat, size: nat)
    requires j > 0
    ensures j * size == (j - 1) * size + size && (j - 1) * size >= 0
  {
  }

  /** The statements of a batched write: one executemany and one commit per slice. */
  function BatchLog<T>(bs: seq<seq<T>>, wrap: seq<T> -> Event): seq<Event> {
    if bs == [] then [] else [wrap(bs[0]), Committed] + BatchLog(bs[1..], wrap)
  }

  /** `for i in range(0, len(xs), size): cur.executemany(sql, xs[i:i + size]); conn.commit()` */
  method ExecuteInBatches<T>(db: Store, xs: seq<T>, size: nat, wrap: seq<T> -> Event)
    requires size > 0
    modifies db
    ensures db.log == old(db.log) + BatchLog(Batches(xs, size), wrap)
    ensures db.tables == ApplyAll(old(db.tables), BatchLog(Batches(xs, size), wrap))
  {
    ghost var log0 := db.log;
    ghost var all := BatchLog(Batches(xs, size), wrap);
    ghost var final := ApplyAll(db.tables, all);
    var i := 0;
    while i < |xs|
      invariant 0 <= i <= |xs|
      invariant db.log + BatchLog(Batches(xs[i..], size), wrap) == log0 + all
      invariant ApplyAll(db.tables, BatchLog(Batches(xs[i..], size), wrap)) == final
    {
      var end := if i + size < |xs| then i + size else |xs|;
      var batch := xs[i..end];
      ghost var rest := BatchLog(Batches(xs[end..], size), wrap);
      BatchStep(xs, size, i, end, wrap, db.tables);
      ghost var log1 := db.log;
      ExecuteAndCommit(db, wrap(batch));
      ConcatAssoc(log1, [wrap(batch), Committed], rest);
      i := end;
    }
    assert xs[i..] == [];
  }

  /** One slice: cur.executemany(...) followed by conn.commit(). */
  method ExecuteAndCommit(db: Store, e: Event)
    modifies db
    ensures db.log == old(db.log) + [e, Committed]
    ensures db.tables == Apply(old(db.tables), e)
  {
    db.Execute(e);
    db.Commit();
  }

  lemma BatchStep<T>(xs: seq<T>, size: nat, i: nat, end: nat, wrap: seq<T> -> Event, t: Tables)
    requires size > 0 && i < |xs| && end == (if i + size < |xs| then i + size else |xs|)
    ensures BatchLog(Batches(xs[i..], size), wrap)
         == [wrap(xs[i..end]), Committed] + BatchLog(Batches(xs[end..], size), wrap)
    ensures ApplyAll(t, BatchLog(Batches(xs[i..], size), wrap))
         == ApplyAll(Apply(t, wrap(xs[i..end])), BatchLog(Batches(xs[end..], size), wrap))
  {
    var ys := xs[i..];
    var k := if |ys| < size then |ys| else size;
    assert ys[..k] == xs[i..end] && ys[k..] == xs[end..];
    var rest := BatchLog(Batches(xs[end..], size), wrap);
    var es := [wrap(xs[i..end]), Committed] + rest;
    assert es[1..] == [Committed] + rest;
    assert es[1..][1..] == rest;
  }

  lemma {:induction false} AddNamesAppend(t: Tables, a: seq<string>, b: seq<string>)
    ensures AddNames(t, a + b) == AddNames(AddNames(t, a), b)
    decreases |a|
  {
    if a == [] {
      assert a + b == b;
    } else {
      assert (a + b)[1..] == a[1..] + b;
      AddNamesAppend(AddName(t, a[0]), a[1..], b);
    }
  }

  /** Inserting the names slice by slice has the effect of inserting them all in order. */
  lemma {:induction false} NameBatchesApply(t: Tables, bs: seq<seq<string>>)
    ensures ApplyAll(t, BatchLog(bs, ns => NamesInserted(ns))) == AddNames(t, Flatten(bs))
    decreases |bs|
  {
    if bs != [] {
      var rest := BatchLog(bs[1..], ns => NamesInserted(ns));
      var es := [NamesInserted(bs[0]), Committed] + rest;
      assert es[1..] == [Committed] + rest;
      assert es[1..][1..] == rest;
      NameBatchesApply(AddNames(t, bs[0]), bs[1..]);
      AddNamesAppend(t, bs[0], Flatten(bs[1..]));
    }
  }

  // ---------------------------------------------------------------------
  // insert_categories

  /** The names of the table's entries, in dict order (old_id_to_name.values()). */
  function NamesOf(t: CatTable, ks: seq<nat>): (r: seq<string>)
    requires forall k :: k in ks ==> k in t.info
    ensures |r| == |ks| && forall j :: 0 <= j < |ks| ==> r[j] == t.info[ks[j]].name
  {
    if ks == [] then [] else [t.info[ks[0]].name] + NamesOf(t, ks[1..])
  }

  /** list(set(xs)): each name once. Python leaves the order of a set
      unspecified; this one keeps the last occurrence of each name. */
  function Dedup(xs: seq<string>): (r: seq<string>)
    ensures forall i, j :: 0 <= i < j < |r| ==> r[i] != r[j]
    ensures forall x :: x in r <==> x in xs
  {
    if xs == [] then []
    else
      var rest := Dedup(xs[1..]);
      assert forall x :: x in xs <==> x == xs[0] || x in xs[1..] by {
        assert xs == [xs[0]] + xs[1..];
      }
      if xs[0] in rest then rest else [xs[0]] + rest
  }

  function UniqueNames(t: CatTable): seq<string>
    requires Valid(t)
  {
    Dedup(NamesOf(t, t.order))
  }

  /** name_to_newid.get(name), retried with name.strip(). */
  function Lookup(nameToNew: map<string, nat>, name: string): Option<nat> {
    if name in nameToNew then Some(nameToNew[name])
    else if Strip(name) in nameToNew then Some(nameToNew[Strip(name)])
    else None
  }

  /** What insert_categories returns, or the old id and name of the
      RuntimeError it raises. */
  datatype Outcome = Mapped(oldToNew: map<nat, nat>) | MissingName(oldId: nat, name: string)

  /** The old_to_new loop as a specification, over the old ids in dict
      order, adding to the map `acc` built so far. */
  function Resolve(t: CatTable, ks: seq<nat>, nameToNew: map<string, nat>, acc: map<nat, nat>): Outcome
    requires forall k :: k in ks ==> k in t.info
  {
    if ks == [] then Mapped(acc)
    else
      var id := Lookup(nameToNew, t.info[ks[0]].name);
      if id.None? then MissingName(ks[0], t.info[ks[0]].name)
      else Resolve(t, ks[1..], nameToNew, acc[ks[0] := id.value])
  }

  /** The mapping succeeds exactly when every name, or its stripped form, was
      fetched; it then maps exactly the given old ids (besides those already
      mapped), each to the id fetched for its name. */
  lemma {:induction false} ResolveExact(t: CatTable, ks: seq<nat>, nameToNew: map<string, nat>, acc: map<nat, nat>)
    requires forall k :: k in ks ==> k in t.info
    ensures Resolve(t, ks, nameToNew, acc).Mapped? <==> forall k :: k in ks ==> Lookup(nameToNew, t.info[k].name).Some?
    ensures Resolve(t, ks, nameToNew, acc).Mapped? ==>
      && (forall k :: k in Resolve(t, ks, nameToNew, acc).oldToNew <==> k in ks || k in acc)
      && (forall k :: k in ks ==> Resolve(t, ks, nameToNew, acc).oldToNew[k] == Lookup(nameToNew, t.info[k].name).value)
      && (forall k :: k in acc && k !in ks ==> Resolve(t, ks, nameToNew, acc).oldToNew[k] == acc[k])
  {
    if ks != [] {
      assert forall k :: k in ks <==> k == ks[0] || k in ks[1..] by {
        assert ks == [ks[0]] + ks[1..];
      }
      var id := Lookup(nameToNew, t.info[ks[0]].name);
      if id.Some? {
        ResolveExact(t, ks[1..], nameToNew, acc[ks[0] := id.value]);
      }
    }
  }

  /** The RuntimeError names the first old id, in dict order, whose name is
      found neither as it is nor stripped. */
  lemma {:induction false} ResolveFirstMissing(t: CatTable, ks: seq<nat>, nameToNew: map<string, nat>, acc: map<nat, nat>, i: nat)
    requires forall k :: k in ks ==> k in t.info
    requires i < |ks| && Lookup(nameToNew, t.info[ks[i]].name).None?
    requires forall j :: 0 <= j < i ==> Lookup(nameToNew, t.info[ks[j]].name).Some?
    ensures Resolve(t, ks, nameToNew, acc) == MissingName(ks[i], t.info[ks[i]].name)
  {
    if i > 0 {
      assert forall k :: k in ks[1..] ==> k in ks;
      forall j | 0 <= j < i - 1 ensures Lookup(nameToNew, t.info[ks[1..][j]].name).Some? {
        assert ks[1..][j] == ks[j + 1];
      }
      var id := Lookup(nameToNew, t.info[ks[0]].name);
      assert id.Some?;
      ResolveFirstMissing(t, ks[1..], nameToNew, acc[ks[0] := id.value], i - 1);
    }
  }

  /** Two old ids with the same name are mapped to the same new id. */
  lemma SameNameSameId(t: CatTable, ks: seq<nat>, nameToNew: map<string, nat>, a: nat, b: nat)
    requires forall k :: k in ks ==> k in t.info
    requires Resolve(t, ks, nameToNew, map[]).Mapped? && a in ks && b in ks
    requires t.info[a].name == t.info[b].name
    ensures a in Resolve(t, ks, nameToNew, map[]).oldToNew && b in Resolve(t, ks, nameToNew, map[]).oldToNew
    ensures Resolve(t, ks, nameToNew, map[]).oldToNew[a] == Resolve(t, ks, nameToNew, map[]).oldToNew[b]
  {
    ResolveExact(t, ks, nameToNew, map[]);
  }

  /** The old_to_new loop of insert_categories: map each old id, in dict
      order, through its name or its stripped name, and stop at the first
      that is found under neither. */
  method ResolveOldIds(t: CatTable, nameToNew: map<string, nat>) returns (r: Outcome)
    requires forall k :: k in t.order ==> k in t.info
    ensures r == Resolve(t, t.order, nameToNew, map[])
  {
    var oldToNew: map<nat, nat> := map[];
    var i := 0;
    while i < |t.order|
      invariant 0 <= i <= |t.order|
      invariant Resolve(t, t.order[i..], nameToNew, oldToNew) == Resolve(t, t.order, nameToNew, map[])
    {
      var oldId := t.order[i];
      var name := t.info[oldId].name;
      var newId := if name in nameToNew then Some(nameToNew[name]) else None;
      if newId.None? {
        newId := if Strip(name) in nameToNew then Some(nameToNew[Strip(name)]) else None;
      }
      assert newId == Lookup(nameToNew, name);
      assert t.order[i..][1..] == t.order[i + 1..];
      if newId.None? {
        assert Resolve(t, t.order[i..], nameToNew, oldToNew) == MissingName(oldId, name);
        return MissingName(oldId, name);
      }
      oldToNew := oldToNew[oldId := newId.value];
      i := i + 1;
    }
    assert t.order[i..] == [];
    r := Mapped(oldToNew);
  }

  /** Step 3 of insert_categories: read the ids of the names back, slice by
      slice, into name_to_newid. */
  method FetchIds(db: Store, names: seq<string>) returns (nameToNew: map<string, nat>)
    ensures forall n :: n in nameToNew ==> n in db.tables.names && nameToNew[n] == db.tables.names[n]
    ensures forall n :: n in names && n in db.tables.names ==> n in nameToNew
    ensures forall n :: n in nameToNew ==> n in names
  {
    var table := db.tables.names;
    nameToNew := map[];
    var i := 0;
    while i < |names|
      invariant 0 <= i <= |names|
      invariant forall n :: n in nameToNew ==> n in table && nameToNew[n] == table[n]
      invariant forall n :: n in names[..i] && n in table ==> n in nameToNew
      invariant forall n :: n in nameToNew ==> n in names[..i]
    {
      var end := if i + CATEGORY_BATCH < |names| then i + CATEGORY_BATCH else |names|;
      var rows := Selected(table, names[i..end]);
      var j := 0;
      while j < |rows|
        invariant 0 <= j <= |rows|
        invariant forall n :: n in nameToNew ==> n in table && nameToNew[n] == table[n]
        invariant forall n :: n in names[..i] && n in table ==> n in nameToNew
        invariant forall jj :: 0 <= jj < j ==> rows[jj].1 in nameToNew
        invariant forall n :: n in nameToNew ==> n in names[..i] || n in names[i..end]
      {
        assert rows[j] in rows;
        nameToNew := nameToNew[rows[j].1 := rows[j].0];
        j := j + 1;
      }
      assert names[..end] == names[..i] + names[i..end];
      forall n | n in names[..end] && n in table ensures n in nameToNew {
        if n in names[i..end] {
          assert (table[n], n) in rows;
        }
      }
      i := end;
    }
    assert names[..i] == names;
  }

  /** insert_categories: insert the unique names slice by slice, read their
      ids back and map every old id through its name. Against a store that
      keeps what it is given, the RuntimeError never happens: every old id
      is mapped, to the id its name has in the table, so two old ids share a
      new id exactly when they share a name. */
  method InsertCategories(db: Store, cats: CatTable) returns (r: Outcome)
    requires Valid(cats) && NamesValid(db.tables)
    modifies db
    ensures db.log == old(db.log) + BatchLog(Batches(UniqueNames(cats), CATEGORY_BATCH), ns => NamesInserted(ns))
    ensures db.tables == AddNames(old(db.tables), UniqueNames(cats))
    ensures NamesValid(db.tables)
    ensures r.Mapped?
    ensures forall k :: k in r.oldToNew <==> k in cats.info
    ensures forall k :: k in cats.info ==>
      cats.info[k].name in db.tables.names && r.oldToNew[k] == db.tables.names[cats.info[k].name]
    ensures forall a, b :: a in cats.info && b in cats.info ==>
      (r.oldToNew[a] == r.oldToNew[b] <==> cats.info[a].name == cats.info[b].name)
  {
    var names := UniqueNames(cats);
    ghost var t0 := db.tables;
    ExecuteInBatches(db, names, CATEGORY_BATCH, ns => NamesInserted(ns));
    BatchesPartition(names, CATEGORY_BATCH);
    NameBatchesApply(t0, Batches(names, CATEGORY_BATCH));
    AddNamesKeeps(t0, names);
    AddNamesHolds(t0, names);
    var nameToNew := FetchIds(db, names);
    r := ResolveOldIds(cats, nameToNew);
    forall k | k in cats.order
      ensures cats.info[k].name in db.tables.names
      ensures Lookup(nameToNew, cats.info[k].name) == Some(db.tables.names[cats.info[k].name])
    {
      var j :| 0 <= j < |cats.order| && cats.order[j] == k;
      assert NamesOf(cats, cats.order)[j] == cats.info[k].name;
    }
    ResolveExact(cats, cats.order, nameToNew, map[]);
  }

  // ---------------------------------------------------------------------
  // update_parent_ids

  /** An entry whose parent old id is recorded and mapped. */
  predicate ResolvedParent(t: CatTable, oldToNew: map<nat, nat>, k: nat) {
    k in t.info && t.info[k].parent.Some? && t.info[k].parent.value in oldToNew
  }

  /** The `updates` list of update_parent_ids, over the old ids in dict order:
      (new parent id, new id) for every entry whose parent is mapped. The
      child's own id is looked up without a default, so it must be mapped. */
  function ParentUpdates(t: CatTable, ks: seq<nat>, oldToNew: map<nat, nat>): seq<(nat, nat)>
    requires forall k :: ResolvedParent(t, oldToNew, k) ==> k in oldToNew
  {
    if ks == [] then []
    else
      var k := ks[0];
      (if ResolvedParent(t, oldToNew, k) then [(oldToNew[t.info[k].parent.value], oldToNew[k])] else [])
      + ParentUpdates(t, ks[1..], oldToNew)
  }

  /** A pair is emitted exactly for an entry whose parent is present and
      mapped; entries without a parent, or with an unmapped one, are skipped. */
  lemma {:induction false} ParentUpdatesExact(t: CatTable, ks: seq<nat>, oldToNew: map<nat, nat>)
    requires forall k :: ResolvedParent(t, oldToNew, k) ==> k in oldToNew
    ensures forall p, c :: (p, c) in ParentUpdates(t, ks, oldToNew) <==>
      exists k :: k in ks && ResolvedParent(t, oldToNew, k) && p == oldToNew[t.info[k].parent.value] && c == oldToNew[k]
  {
    if ks != [] {
      assert forall k :: k in ks <==> k == ks[0] || k in ks[1..] by {
        assert ks == [ks[0]] + ks[1..];
      }
      ParentUpdatesExact(t, ks[1..], oldToNew);
    }
  }

  /** update_parent_ids has no self-parent check: two old ids with the same
      name, one the parent of the other, produce an update that makes the
      category its own parent. */
  lemma SelfParentPossible()
    ensures var t := CatTable([1, 2], map[1 := CatInfo("Books", None), 2 := CatInfo("Books", Some(1))]);
      && Resolve(t, t.order, map["Books" := 7], map[]) == Mapped(map[1 := 7, 2 := 7])
      && ParentUpdates(t, t.order, map[1 := 7, 2 := 7]) == [(7, 7)]
  {
    var t := CatTable([1, 2], map[1 := CatInfo("Books", None), 2 := CatInfo("Books", Some(1))]);
    var m: map<string, nat> := map["Books" := 7];
    assert Lookup(m, "Books") == Some(7);
    assert t.order[1..] == [2] && t.order[1..][1..] == [];
    assert Resolve(t, t.order, m, map[]) == Resolve(t, [2], m, map[1 := 7]);
    assert Resolve(t, [2], m, map[1 := 7]) == Mapped(map[1 := 7, 2 := 7]);
    assert ParentUpdates(t, [2], map[1 := 7, 2 := 7]) == [(7, 7)];
  }

  lemma ParentUpdatesStep(t: CatTable, ks: seq<nat>, oldToNew: map<nat, nat>)
    requires ks != []
    requires forall k :: ResolvedParent(t, oldToNew, k) ==> k in oldToNew
    ensures ParentUpdates(t, ks, oldToNew)
         == (if ResolvedParent(t, oldToNew, ks[0]) then [(oldToNew[t.info[ks[0]].parent.value], oldToNew[ks[0]])] else [])
            + ParentUpdates(t, ks[1..], oldToNew)
  {
  }

  /** Building the updates list: one loop over the entries in dict order. */
  method BuildParentUpdates(t: CatTable, oldToNew: map<nat, nat>) returns (updates: seq<(nat, nat)>)
    requires forall k :: k in t.order ==> k in t.info
    requires forall k :: ResolvedParent(t, oldToNew, k) ==> k in oldToNew
    ensures updates == ParentUpdates(t, t.order, oldToNew)
  {
    updates := [];
    var i := 0;
    while i < |t.order|
      invariant 0 <= i <= |t.order|
      invariant updates + ParentUpdates(t, t.order[i..], oldToNew) == ParentUpdates(t, t.order, oldToNew)
    {
      var oldId := t.order[i];
      var info := t.info[oldId];
      ghost var rest := ParentUpdates(t, t.order[i + 1..], oldToNew);
      ParentUpdatesStep(t, t.order[i..], oldToNew);
      assert t.order[i..][1..] == t.order[i + 1..];
      if info.parent.Some? && info.parent.value in oldToNew {
        var parentOld := info.parent.value;
        var parentNew := oldToNew[parentOld];
        var catNewId := oldToNew[oldId];
        ConcatAssoc(updates, [(parentNew, catNewId)], rest);
        updates := updates + [(parentNew, catNewId)];
      } else {
        ConcatEmpty(rest);
      }
      i := i + 1;
    }
    assert t.order[i..] == [];
  }

  lemma {:induction false} SetParentsAppend(t: Tables, a: seq<(nat, nat)>, b: seq<(nat, nat)>)
    ensures SetParents(t, a + b) == SetParents(SetParents(t, a), b)
    decreases |a|
  {
    if a == [] {
      assert a + b == b;
    } else {
      assert (a + b)[1..] == a[1..] + b;
      SetParentsAppend(SetParent(t, a[0]), a[1..], b);
    }
  }

  /** Updating the parents slice by slice has the effect of applying all the updates in order. */
  lemma {:induction false} ParentBatchesApply(t: Tables, bs: seq<seq<(nat, nat)>>)
    ensures ApplyAll(t, BatchLog(bs, ps => ParentsUpdated(ps))) == SetParents(t, Flatten(bs))
    decreases |bs|
  {
    if bs != [] {
      var rest := BatchLog(bs[1..], ps => ParentsUpdated(ps));
      var es := [ParentsUpdated(bs[0]), Committed] + rest;
      assert es[1..] == [Committed] + rest;
      assert es[1..][1..] == rest;
      ParentBatchesApply(SetParents(t, bs[0]), bs[1..]);
      SetParentsAppend(t, bs[0], Flatten(bs[1..]));
    }
  }

  /** update_parent_ids: build the updates, then execute them slice by slice. */
  method UpdateParentIds(db: Store, t: CatTable, oldToNew: map<nat, nat>)
    requires forall k :: k in t.order ==> k in t.info
    requires forall k :: ResolvedParent(t, oldToNew, k) ==> k in oldToNew
    modifies db
    ensures db.log == old(db.log) + BatchLog(Batches(ParentUpdates(t, t.order, oldToNew), CATEGORY_BATCH), ps => ParentsUpdated(ps))
    ensures db.tables == SetParents(old(db.tables), ParentUpdates(t, t.order, oldToNew))
  {
    var updates := BuildParentUpdates(t, oldToNew);
    ghost var t0 := db.tables;
    ExecuteInBatches(db, updates, CATEGORY_BATCH, ps => ParentsUpdated(ps));
    BatchesPartition(updates, CATEGORY_BATCH);
    ParentBatchesApply(t0, Batches(updates, CATEGORY_BATCH));
  }

  /** On a table whose every recorded parent is itself a key, as the first
      pass builds it, with every old id mapped, no parent link is skipped:
      each entry with a parent yields its update. */
  lemma ParentsAllUpdated(t: CatTable, oldToNew: map<nat, nat>, k: nat)
    requires Valid(t) && ParentsRecorded(t)
    requires forall j :: j in t.info ==> j in oldToNew
    requires k in t.info && t.info[k].parent.Some?
    ensures (oldToNew[t.info[k].parent.value], oldToNew[k]) in ParentUpdates(t, t.order, oldToNew)
  {
    assert ResolvedParent(t, oldToNew, k);
    ParentUpdatesExact(t, t.order, oldToNew);
  }

  /** The category steps of the loader, in order: the first pass, the name
      inserts and id mapping, and the parent updates. Every parent link the
      first pass recorded reaches the update list. */
  /** The statements of the category load: the name slices, each with its
      commit, then the parent-update slices, each with its commit. */
  function CategoryLog(cats: CatTable, oldToNew: map<nat, nat>): seq<Event>
    requires Valid(cats)
    requires forall k :: ResolvedParent(cats, oldToNew, k) ==> k in oldToNew
  {
    BatchLog(Batches(UniqueNames(cats), CATEGORY_BATCH), ns => NamesInserted(ns))
    + BatchLog(Batches(ParentUpdates(cats, cats.order, oldToNew), CATEGORY_BATCH), ps => ParentsUpdated(ps))
  }

  /** The tables after the category load: the unique names inserted, then
      the parent links set. */
  function CategoryTables(t: Tables, cats: CatTable, oldToNew: map<nat, nat>): Tables
    requires Valid(cats)
    requires forall k :: ResolvedParent(cats, oldToNew, k) ==> k in oldToNew
  {
    SetParents(AddNames(t, UniqueNames(cats)), ParentUpdates(cats, cats.order, oldToNew))
  }

  /** main, steps 1 and 2: insert_categories, then update_parent_ids with
      the mapping it returned. */
  method PersistCategories(db: Store, cats: CatTable) returns (oldToNew: map<nat, nat>)
    requires Valid(cats) && NamesValid(db.tables)
    modifies db
    ensures forall k :: k in oldToNew <==> k in cats.info
    ensures forall k :: k in cats.info ==>
      cats.info[k].name in db.tables.names && oldToNew[k] == db.tables.names[cats.info[k].name]
    ensures forall a, b :: a in cats.info && b in cats.info ==>
      (oldToNew[a] == oldToNew[b] <==> cats.info[a].name == cats.info[b].name)
    ensures NamesValid(db.tables)
    ensures db.log == old(db.log) + CategoryLog(cats, oldToNew)
    ensures db.tables == CategoryTables(old(db.tables), cats, oldToNew)
  {
    ghost var log0 := db.log;
    var r := InsertCategories(db, cats);
    oldToNew := r.oldToNew;
    ghost var t1 := db.tables;
    ghost var log1 := db.log;
    UpdateParentIds(db, cats, oldToNew);
    SetParentsKeepsNames(t1, ParentUpdates(cats, cats.order, oldToNew));
    assert db.tables.names == t1.names && db.tables.next == t1.next;
    ConcatAssoc(log0, BatchLog(Batches(UniqueNames(cats), CATEGORY_BATCH), ns => NamesInserted(ns)),
      BatchLog(Batches(ParentUpdates(cats, cats.order, oldToNew), CATEGORY_BATCH), ps => ParentsUpdated(ps)));
  }

  /** main, steps 0 to 2: collect the categories, insert them, and link
      every recorded parent with the durable ids. */
  method LoadCategories(db: Store, lines: seq<string>) returns (cats: CatTable, oldToNew: map<nat, nat>)
    requires NamesValid(db.tables)
    modifies db
    ensures Valid(cats) && ParentsRecorded(cats)
    ensures cats == Extracted(lines)
    ensures forall k :: k in oldToNew <==> k in cats.info
    ensures forall k :: k in cats.info && cats.info[k].parent.Some? ==>
      (oldToNew[cats.info[k].parent.value], oldToNew[k]) in ParentUpdates(cats, cats.order, oldToNew)
    ensures forall k :: k in cats.info ==>
      cats.info[k].name in db.tables.names && oldToNew[k] == db.tables.names[cats.info[k].name]
    ensures forall a, b :: a in cats.info && b in cats.info ==>
      (oldToNew[a] == oldToNew[b] <==> cats.info[a].name == cats.info[b].name)
    ensures NamesValid(db.tables)
    ensures db.log == old(db.log) + CategoryLog(cats, oldToNew)
    ensures db.tables == CategoryTables(old(db.tables), cats, oldToNew)
  {
    cats := ExtractAllCategories(lines);
    InsertAllKeeps(Empty, AllEntries(lines));
    ExtractedParentsRecorded(lines);
    oldToNew := PersistCategories(db, cats);
    forall k | k in cats.info && cats.info[k].parent.Some?
      ensures (oldToNew[cats.info[k].parent.value], oldToNew[k]) in ParentUpdates(cats, cats.order, oldToNew)
    {
      ParentsAllUpdated(cats, oldToNew, k);
    }
  }
}
