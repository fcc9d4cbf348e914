# Amazon SNAP metadata loader: a Dafny model

This project models the ETL loader for the SNAP `amazon-meta.txt` corpus.
The loader reads the corpus twice and writes products, categories, links and
reviews into a relational store.

- **Pass 1** (`extract_all_categories`). Every category chain line
  (`|Books[283155]|Subjects[1000]|...`) is taken apart with the pattern
  `CAT_PART_RE`. Each old id is recorded with its stripped name and the old id
  before it on the line. The first entry seen for an old id wins.
- **Category load** (`insert_categories`, `update_parent_ids`):
  - The unique names are inserted in slices of `CATEGORY_BATCH` = 500, with a
    commit per slice.
  - Their durable ids are read back by name.
  - Every old id is mapped to the id of its name, retrying with the stripped
    name. A name that cannot be found raises.
  - `(new parent, new child)` updates are built for every entry whose parent is
    mapped, and sent in slices of 500.
- **Pass 2** (`parse_snap`, `process_products_and_reviews`):
  - The record parser is a line-driven state machine. It ignores the lines
    before the first `Id:` and hands on one record per `Id:` line.
  - Records without an asin (None or empty) are skipped.
  - Every other record adds:
    - a product row, with review count and average rating;
    - membership rows, for the categories whose old id is mapped;
    - related rows, canonically ordered, skipping empty and self references;
    - review rows.
  - The rows go into four buffers. `flush_batches` sends the non-empty buffers
    in the order products, memberships, related, reviews, clears them, and
    commits. A flush happens after every `BATCH_SIZE` = 2000 accepted records,
    and once more at the end.

The model has one module per part:

- `Text`: Python string helpers (`strip`, `lower`, `split`, `isdigit`,
  `int`, string `<`).
- `CatPart`: `CAT_PART_RE.findall` and `_parse_category_line_to_list`.
- `Collect`: `extract_all_categories`.
- `Snap`: `parse_snap`.
- `Db`: the store, as a class holding the tables and the log of statement
  batches and commits.
- `CategoryLoad`: `insert_categories` and `update_parent_ids`.
- `ProductLoad`: `process_products_and_reviews` and `flush_batches`, and the
  first four steps of `main`.

The operations that work by loops and updates are methods with loop
invariants. A method that only computes is proved equal to a specification
function over the whole input. A method that goes through the store states
what it returns and the store's new tables and log. This covers `FetchIds`,
`InsertCategories`, `PersistCategories`, `LoadCategories`, `ProcessProducts`
and `LoadCorpus`. The properties of the loader are lemmas about those
functions.

Lines of the corpus are the input sequence `lines`. The two review regular
expressions, `REVIEW_RE` and `REVIEW_SUMMARY_RE`, are parameters (`Snap.Recognisers`).
The database is a `Db.Store` object whose `Execute` and `Commit` change its tables and log.

Behaviours of the code that a stricter loader would not have:

- `update_parent_ids` has no check that a category is not its own parent.
  Two old ids with the same name share one durable id, so a child whose
  parent has the same name yields the update `(id, id)` (`SelfParentPossible`).
- A record is kept whenever it has a non-empty asin. A missing title does not
  drop it.
- Related pairs are not filtered against the set of accepted products. They
  are written in every flush, between memberships and reviews (`RelatedNotFiltered`).
- The category entries of one record are not de-duplicated by old id.
- The review insert has no conflict clause, so reviews are appended each time
  they are loaded.
- The parent-id update is a plain `UPDATE`, not a conflict-ignoring insert.
- When `parse_snap` raises, the exception leaves the loop. It raises on an
  `Id:` line whose value `int()` rejects, and on a review summary line whose
  avg rating matches `[0-9.]+` but is rejected by `float()` (such as "1.2.3"). The final flush never runs, so the rows still in
  the buffers are not sent (`FailedLoadDropsTail`).

## Model

| member | source | states |
|---|---|---|
| Text.ParseInt | src/utils.py:115 | `int()` of a digit string is its decimal value; a sign followed by digits is accepted, with "-" negating the value; nothing else is accepted |
| Text.Strip | src/utils.py:105 | `str.strip()`: `rstrip` after `lstrip`, each pinned down by TrimStartSpec and TrimEndSpec |
| Text.DigitsValueAppend | src/utils.py:62 | positional value: the digits of a + b are worth those of a times ten to the length of b, plus those of b |
| Text.TrimStartSpec | src/utils.py:105 | stripping the start leaves a suffix that does not start with whitespace, and every removed character is whitespace |
| Text.TrimEndSpec | src/utils.py:105 | stripping the end leaves a prefix that does not end with whitespace, and every removed character is whitespace |
| Text.StripSpec | src/utils.py:105 | `strip()` leaves text that neither starts nor ends with whitespace |
| Text.StripUntrimmed | src/utils.py:66 | `strip()` leaves text without outer whitespace unchanged |
| Text.StripIdempotent | src/utils.py:89 | stripping twice is the same as stripping once |
| Text.LowerChar | src/utils.py:106 | `lower()` keeps ':' and produces a lower-case letter only from a letter; that it lowers 'A'..'Z' is stated by HasTagIgnoresCase |
| Text.HasTagIgnoresCase | src/utils.py:106 | `line.lower().startswith(tag)` for a tag without capitals holds exactly when each leading character is the tag's character or, for a letter, its capital |
| Text.AfterFirstColonSpec | src/utils.py:126 | with a colon in the line, the result is exactly the text after the first colon, as `split(':', 1)[1]`; without one the model returns empty where Python would raise IndexError, a case no caller reaches since every call follows a tag ending in ':' (TaggedValue) |
| Text.TaggedValue | src/utils.py:125-130 | on a line that starts with a field tag, the text after the first colon is the text after the tag |
| Text.WordEnd | src/utils.py:135 | the end of a word lies between its start and the end of the line |
| Text.WordEndSpec | src/utils.py:135 | a word ends at whitespace or at the end of the line and contains no whitespace |
| Text.TokensAreWords | src/utils.py:135 | every token of `split()` is non-empty and free of whitespace |
| Text.Tokens | src/utils.py:135 | `str.split()`; TokensSplit, TokensWord and `Tokens("") == []` fix it on every input, and TokensAreWords and TokensJoin follow |
| Text.TokensSplit | src/utils.py:135 | `split()` cuts at every whitespace character: the tokens of `a + c + b` are those of `a` followed by those of `b` |
| Text.TokensWord | src/utils.py:135 | a non-empty run without whitespace is a single token |
| Text.TokensJoin | src/utils.py:135 | the tokens of `split()`, written back to back, are exactly the line's non-whitespace characters, in order |
| Text.LexLessIrreflexive | src/tp1_3.2.py:202 | string `<` is irreflexive |
| Text.LexLessAsymmetric | src/tp1_3.2.py:202 | string `<` is asymmetric |
| Text.LexLessTotal | src/tp1_3.2.py:202 | of two different strings one is `<` the other |
| CatPart.NameEnd | src/utils.py:29 | the name group is the longest run of characters other than '\|' and '[' |
| CatPart.DigitEnd | src/utils.py:31 | the id group is the longest run of digits |
| CatPart.MatchAt | src/utils.py:27-33 | a match yields a valid (name, digits) part whose text `\|name[digits]` is exactly the matched prefix |
| CatPart.FindAll | src/utils.py:58 | `CAT_PART_RE.findall`; FindAllJunk and FindAllPartText fix it on every string, and FindAllValid, FindAllRender and FindAllNeedsBoth follow |
| CatPart.FindAllJunk | src/utils.py:58 | text at none of whose positions a match starts is skipped: `findall(junk + s) == findall(s)` |
| CatPart.FindAllValid | src/utils.py:27-33 | every part `findall` returns has a non-empty name without '\|' or '[' and an all-digit id |
| CatPart.MatchAtPartText | src/utils.py:27-33 | the pattern matches the text of a valid part exactly, whatever follows |
| CatPart.NameEndStops | src/utils.py:29 | the name group stops at the first '\|' or '[' |
| CatPart.DigitEndStops | src/utils.py:31 | the id group stops at the first non-digit |
| CatPart.FindAllRender | src/utils.py:58 | `findall` over a chain written out returns its parts in order, followed by the matches in the rest |
| CatPart.FindAllPartText | src/utils.py:58 | `findall` over one part followed by text returns that part, then the matches of the text |
| CatPart.FindAllNeedsBoth | src/utils.py:57-58 | a line without '\|' or without '[' has no matches, so the pre-check drops nothing |
| CatPart.ChainShape | src/utils.py:80-92 | one entry per part, in order, with the part's id and stripped name; the first has no parent and each later one has the previous id as parent |
| CatPart.ThreeLevelChain | src/utils.py:76-92 | `\|A[1]\|B[2]\|C[3]\|` becomes (1, A, None), (2, B, 1), (3, C, 2) |
| CatPart.ThreeLevelParts | src/utils.py:58 | `findall` on `\|A[1]\|B[2]\|C[3]\|` returns the three parts |
| CatPart.ThreeLevelEntries | src/utils.py:80-92 | the three parts chain to (1, A, None), (2, B, 1), (3, C, 2) |
| CatPart.ParseCategoryLine | src/utils.py:76-92 | the loop builds exactly the chain of the line's matches |
| Collect.ExtractAllCategories | src/utils.py:47-73 | the loop over lines builds exactly the first-entry-wins table of all chain entries |
| Collect.AddChain | src/utils.py:58-72 | the loop over one line's parts inserts the line's chain into the table |
| Collect.Insert | src/utils.py:68-69 | `if old_id not in categories: categories[old_id] = ...`; its meaning is given by InsertKeeps and InsertAllFirst |
| Collect.InsertAllAppend | src/utils.py:54-72 | inserting two entry sequences one after the other is inserting their concatenation |
| Collect.AllEntriesAppend | src/utils.py:54-58 | the entries of two blocks of lines are the entries of each, in order |
| Collect.InsertAllKeeps | src/utils.py:68-69 | insertion keeps the keys unique, adds exactly the new ids and never changes an entry already present |
| Collect.IdsCons | src/utils.py:68 | the ids of an entry sequence are its first id and the ids of the rest |
| Collect.InsertKeeps | src/utils.py:68-69 | one insertion keeps the table valid, adds its id and changes no present entry |
| Collect.InsertAllFirst | src/utils.py:68-69 | an id gets the name and parent of its first entry |
| Collect.ExtractedFirstWins | src/utils.py:47-73 | the table holds exactly the ids seen, and each maps to its first occurrence's name and parent |
| Collect.LaterLinesNeverOverwrite | src/utils.py:68-69 | lines read later never change an entry already recorded |
| Collect.ChainKeepsParents | src/utils.py:59-72 | inserting a chain keeps every recorded parent a key of the table |
| Collect.InsertKeepsParents | src/utils.py:68-72 | one insertion whose parent is recorded keeps every parent a key |
| Collect.LinesKeepParents | src/utils.py:54-72 | reading more lines keeps every recorded parent a key |
| Collect.ExtractedParentsRecorded | src/utils.py:47-73 | every parent old id in the result is itself a key of the result |
| Snap.ApplyLine | src/utils.py:124-168 | a non-Id line on which the parser does not raise never changes the record's id and keeps categories_count in step with the category list |
| Snap.ParseSnap | src/utils.py:95-172 | the generator yields exactly the records of the line-by-line specification, and fails exactly when it does |
| Snap.Finish | src/utils.py:170-172 | the last open record is yielded when the input ends normally; its meaning is given by OneRecordPerIdLine |
| Snap.RunFrom | src/utils.py:104-168 | the generator's loop over the lines, stopping at the first ValueError; its meaning is given by RunIds, RunFailsOnBadId, RunFailsOnRating and RunCounted |
| Snap.Step | src/utils.py:104-168 | one line of the generator: an `Id:` line hands on the open record and opens the next, a rejected avg rating ends the parse, any other line goes to ApplyLine; its meaning is given by StepIds, RunFailsOnBadId, SummaryLine and the per-line lemmas |
| Snap.ParseSnapSpec | src/utils.py:95-172 | the generator as a function of the lines; its meaning is given by OneRecordPerIdLine, FailsExactlyOnRejectedValue, LeadingLinesIgnored and CategoriesCounted |
| Snap.LeadingLinesIgnored | src/utils.py:121-122 | lines before the first `Id:` line change nothing |
| Snap.ProductIdsAppend | src/utils.py:111 | the ids of two runs of records are those of each, in order |
| Snap.RunIds | src/utils.py:109-153 | when no line raises, the run never fails and opens one record per `Id:` line |
| Snap.StepIds | src/utils.py:109-120 | one line opens a record exactly when it is an `Id:` line, with that line's id |
| Snap.OneRecordPerIdLine | src/utils.py:109-172 | when no line raises, one record is yielded per `Id:` line, with its id, in order |
| Snap.RunFailsOnBadId | src/utils.py:115 | an `Id:` line whose value `int()` rejects stops the parse with an error |
| Snap.RunFailsOnRating | src/utils.py:147-153 | a review summary line whose avg rating `float()` rejects, met while a record is open, stops the parse with an error |
| Snap.FailsExactlyOnRejectedValue | src/utils.py:109-153 | the parse fails if and only if some `Id:` line has a value `int()` rejects, or a review summary line met while a record is open has an avg rating `float()` rejects |
| Snap.RunCounted | src/utils.py:142-145 | every record keeps categories_count equal to the length of its category list |
| Snap.CategoriesCounted | src/utils.py:142-145 | in every yielded record, categories_count is the number of its categories |
| Snap.TagsBeforeCategories | src/utils.py:125-145 | a field-tag line that also contains '\|' is taken as a field: categories and reviews are untouched |
| Snap.FieldLine | src/utils.py:125-130 | an asin, title or group line sets that field to the stripped text after its tag, and nothing else changes |
| Snap.SalesrankLine | src/utils.py:131-133 | salesrank is the value's integer when all digits, else None, and nothing else changes |
| Snap.SimilarLine | src/utils.py:134-139 | the count comes from token 1 when numeric; the list is tokens 2 onwards, kept as before when there are fewer than three; nothing else changes |
| Snap.CategoryLine | src/utils.py:142-145 | an untagged line containing the bar character appends its chain to the categories and adds its length to categories_count, and nothing else changes |
| Snap.SummaryLine | src/utils.py:147-153 | a review summary line leaves the record as it was without a match, sets total and downloaded on a match, and raises when `float()` rejects the avg rating, so the open record is not yielded |
| Snap.OtherLine | src/utils.py:155-168 | any other line appends one review when the review pattern matches, and otherwise changes nothing |
| Db.AddNamesKeeps | src/tp1_3.2.py:43 | inserting names keeps the SERIAL ids unique and never changes an existing name's id |
| Db.AddNamesHolds | src/tp1_3.2.py:43-47 | after the inserts the table holds exactly the old names and the inserted ones |
| Db.AddNamesOnlyNames | src/tp1_3.2.py:43 | the category insert touches no other table |
| Db.SetParentsKeepsNames | src/tp1_3.2.py:95 | the parent update changes only parent_id: names, their ids and the sequence are unchanged |
| Db.UpsertPolicy | src/tp1_3.2.py:120-128 | an upsert overwrites title, group, salesrank and the aggregates, keeps source_id and downloads of an existing asin, and changes no other product |
| Db.Upsert | src/tp1_3.2.py:120-128 | the product upsert; its meaning is given by UpsertPolicy |
| Db.ApplyAllAppend | src/tp1_3.2.py:142-156 | applying two statement sequences in turn is applying their concatenation |
| Db.Selected | src/tp1_3.2.py:52-57 | the name lookup returns (id, name) for every requested name the table holds, and nothing else |
| Db.Store.constructor | src/tp1_3.2.py:232 | a connection sees the tables earlier runs left, and nothing has been sent on it yet |
| Db.Store.Execute | src/tp1_3.2.py:46 | a statement batch applies its effect and is appended to the log |
| Db.Store.Commit | src/tp1_3.2.py:47 | a commit leaves the tables unchanged and is appended to the log |
| CategoryLoad.BatchesPartition | src/tp1_3.2.py:44-45 | the slices cover the input once, in order, each holding between 1 and the batch size |
| CategoryLoad.BatchesIndex | src/tp1_3.2.py:44-45 | element p of slice j is element j*size+p of the input |
| CategoryLoad.Batches | src/tp1_3.2.py:44-45 | the slices `xs[i:i + size]`; its meaning is given by BatchesPartition and BatchesIndex |
| CategoryLoad.ExecuteInBatches | src/tp1_3.2.py:44-47 | the loop sends exactly one statement batch and one commit per slice, in order |
| CategoryLoad.ExecuteAndCommit | src/tp1_3.2.py:46-47 | one slice appends one statement batch and then a commit to the log, and applies the batch to the tables |
| CategoryLoad.AddNamesAppend | src/tp1_3.2.py:44-46 | inserting two name lists in turn is inserting their concatenation |
| CategoryLoad.NameBatchesApply | src/tp1_3.2.py:44-47 | inserting the names slice by slice has the effect of inserting them all |
| CategoryLoad.NamesOf | src/tp1_3.2.py:38 | one name per old id, in dict order |
| CategoryLoad.Dedup | src/tp1_3.2.py:39 | `list(set(names))` holds each name exactly once, and only the given names |
| CategoryLoad.Lookup | src/tp1_3.2.py:62-65 | `name_to_newid.get(name)`, retried with the stripped name; its meaning is given by ResolveExact |
| CategoryLoad.ResolveExact | src/tp1_3.2.py:60-68 | the mapping succeeds if and only if every name, or its stripped form, was fetched; it then maps exactly the given old ids, each to its name's id |
| CategoryLoad.ResolveFirstMissing | src/tp1_3.2.py:63-67 | the error names the first old id, in dict order, whose name was not fetched |
| CategoryLoad.SameNameSameId | src/tp1_3.2.py:60-68 | two old ids with the same name map to the same durable id |
| CategoryLoad.ResolveOldIds | src/tp1_3.2.py:59-68 | the loop returns exactly the mapping, or the first missing name, of the specification |
| CategoryLoad.FetchIds | src/tp1_3.2.py:51-57 | every fetched name was requested and maps to the table's id for it, and every requested name the table holds is fetched |
| CategoryLoad.InsertCategories | src/tp1_3.2.py:27-71 | names go in by slice and commit; the mapping never fails, covers exactly the old ids, maps each to the id of its name, and two ids share a durable id exactly when their names agree |
| CategoryLoad.ParentUpdatesExact | src/tp1_3.2.py:80-92 | an update (p, c) is emitted exactly for an entry with a mapped parent, with p the parent's new id and c the entry's new id |
| CategoryLoad.SelfParentPossible | src/tp1_3.2.py:80-92 | a child and parent with the same name produce an update making a category its own parent |
| CategoryLoad.BuildParentUpdates | src/tp1_3.2.py:79-92 | the loop builds exactly the specified update list, in dict order |
| CategoryLoad.SetParentsAppend | src/tp1_3.2.py:96-98 | applying two update lists in turn is applying their concatenation |
| CategoryLoad.ParentBatchesApply | src/tp1_3.2.py:95-99 | sending the updates slice by slice has the effect of applying them all |
| CategoryLoad.UpdateParentIds | src/tp1_3.2.py:74-100 | the updates are sent in slices, each followed by a commit, and their effect is the whole update list |
| CategoryLoad.ParentsAllUpdated | src/tp1_3.2.py:81-92 | after pass 1 every recorded parent link has its update |
| CategoryLoad.PersistCategories | src/tp1_3.2.py:239-246 | insert then update: the mapping covers exactly the old ids and maps each to the durable id of its name, same id exactly for same name; the log is the name slices then the update slices, each with its commit; the tables are the names added, then the parents set |
| CategoryLoad.LoadCategories | src/tp1_3.2.py:234-246 | the table is pass 1's result; the mapping covers exactly its old ids and maps each to the durable id of its name; two ids share one exactly when their names agree; every parent link is among the updates; the log and tables are the category statements and their effect |
| ProductLoad.WrittenAppend | src/tp1_3.2.py:142-156 | the rows and commits of two logs add up |
| ProductLoad.WrittenPart | src/tp1_3.2.py:144-155 | one guarded statement writes exactly its rows, and no commit |
| ProductLoad.FlushWrites | src/tp1_3.2.py:142-156 | a flush writes exactly the buffered rows and commits once |
| ProductLoad.FlushLayout | src/tp1_3.2.py:142-156 | a flush ends in its only commit; every statement before it is non-empty; products go first; empty buffers give only a commit |
| ProductLoad.FlushEvents | src/tp1_3.2.py:142-156 | the statements of flush_batches; its meaning is given by FlushWrites and FlushLayout |
| ProductLoad.AcceptTracks | src/tp1_3.2.py:159-212 | one record keeps log plus buffers equal to all rows so far, the count in step with the commits, and the buffer below the batch size |
| ProductLoad.FlushPoint | src/tp1_3.2.py:211 | the count reaches a multiple of the batch size exactly when the buffer fills |
| ProductLoad.BufferOne | src/tp1_3.2.py:185-211 | a record that does not fill the buffer is only buffered, and the invariant holds |
| ProductLoad.BufferTracks | src/tp1_3.2.py:185-211 | buffering one record keeps the invariant |
| ProductLoad.FlushOne | src/tp1_3.2.py:185-212 | a record that fills the buffer triggers a flush, and the invariant holds |
| ProductLoad.FlushTracks | src/tp1_3.2.py:211-212 | flushing at a multiple of the batch size keeps the invariant |
| ProductLoad.FeedInvariant | src/tp1_3.2.py:159-212 | after any prefix of the records, log plus buffers hold all their rows, and the count is the number accepted |
| ProductLoad.FeedCounts | src/tp1_3.2.py:186-212 | after n accepted records, n mod batch size records are buffered and n div batch size flushes happened |
| ProductLoad.LoadWritesEverything | src/tp1_3.2.py:159-216 | a complete pass writes exactly the rows of every accepted record, with n div batch size + 1 commits |
| ProductLoad.FailedLoadDropsTail | src/tp1_3.2.py:159-216 | when parsing raises, only the product rows of the flushed batches are written, the other kinds are prefixes, and there is no final commit |
| ProductLoad.LoadLogKeepsCategories | src/tp1_3.2.py:142-216 | the record pass never changes the Categories table: names, their ids, the sequence and the parent links stay as they were |
| ProductLoad.ProductRowCount | src/tp1_3.2.py:159-186 | one product row per accepted record |
| ProductLoad.ProductRowsExact | src/tp1_3.2.py:159-186 | a product row is written if and only if it belongs to a record with a non-empty asin |
| ProductLoad.ProductRowFields | src/tp1_3.2.py:165-184 | the row carries the record's fields, the review count, an average that is None exactly without reviews and otherwise the rating sum over the count, and 0 downloads |
| ProductLoad.MembershipRowsExact | src/tp1_3.2.py:189-196 | a membership row exists if and only if one of the record's category ids is mapped to it |
| ProductLoad.CanonicalOrdered | src/tp1_3.2.py:202 | the canonical pair is strictly ordered and holds both asins |
| ProductLoad.Canonical | src/tp1_3.2.py:202 | `(asin, sim) if asin < sim else (sim, asin)`; its meaning is given by CanonicalOrdered |
| ProductLoad.RelatedRowsExact | src/tp1_3.2.py:200-203 | related rows are exactly the canonical pairs of the non-empty, non-self references |
| ProductLoad.ReviewRowsInOrder | src/tp1_3.2.py:206-208 | one review row per review, in order, tied to the asin |
| ProductLoad.RelatedNotFiltered | src/tp1_3.2.py:159-203 | a record with no title is kept, and a reference to an asin never loaded still gives a related row |
| ProductLoad.Buffers.constructor | src/tp1_3.2.py:137-140 | the buffers start empty |
| ProductLoad.Buffers.Flush | src/tp1_3.2.py:142-156 | flush_batches sends the non-empty buffers in order, then commits, and leaves the buffers empty |
| ProductLoad.Buffers.Add | src/tp1_3.2.py:175-208 | the record's product, membership, related and review rows are appended to the buffers |
| ProductLoad.SendIfAny | src/tp1_3.2.py:144-155 | a buffer is sent only when non-empty |
| ProductLoad.Send | src/tp1_3.2.py:156 | one statement or commit goes to the store |
| ProductLoad.SumRatings | src/tp1_3.2.py:169-171 | the loop computes the rating sum |
| ProductLoad.MembershipRowsOf | src/tp1_3.2.py:189-196 | the loop builds exactly the specified membership rows |
| ProductLoad.RelatedRowsOf | src/tp1_3.2.py:200-203 | the loop builds exactly the specified related rows |
| ProductLoad.ReviewRowsOf | src/tp1_3.2.py:206-208 | the loop builds exactly the specified review rows |
| ProductLoad.ProcessProducts | src/tp1_3.2.py:103-218 | the pass sends exactly the specified log, and reports whether parsing raised |
| ProductLoad.HandleRecord | src/tp1_3.2.py:159-213 | one loop iteration is one step of the specification |
| ProductLoad.FlushInLoop | src/tp1_3.2.py:211-213 | the in-loop flush sends the flush statements and empties the buffers |
| ProductLoad.LoadCorpus | src/tp1_3.2.py:221-252 | the whole run: the log is the category statements followed by the record pass's, and the tables are their effect; after the run each old id maps to the durable id its name has in the final table, same id exactly for same name; the parent links are those the category load set; the result reports whether parsing raised |

## Left out

- Opening and reading the file, `print` diagnostics, `argparse`, connecting to
  the database and closing it. Lines of the corpus are an input sequence, and
  warnings are not modelled.
- The regular expressions `REVIEW_RE` and `REVIEW_SUMMARY_RE` and
  `datetime.strptime` are parameters. They are total functions of the line, in
  `Snap.Recognisers`. Of the summary's `avg_rating`, only whether `float()`
  accepts it is kept (`Snap.SummaryMatch`), not its value.
- The average rating is kept as the exact ratio (rating sum, review count).
  `round(s / total, 2)` in floating point is not modelled.
- Python's `set` order in `list(set(...))` is unspecified. `CategoryLoad.Dedup`
  keeps the last occurrence of each name. Only the names, not their order,
  are relied on.
- SELECT row order is the order of the requested batch.
- Schema constraints are not modelled: CHECK `product1 < product2`, foreign
  keys, NOT NULL. The tables are maps and sets without them.
- Storage errors and rollback are not modelled: every statement succeeds.
- Text.ParseInt: the model's `int()` accepts only an optional sign and ASCII
  digits. Python's also accepts underscores between digits and any Unicode
  decimal digit.
- Text.IsDigits: the model's `str.isdigit()` is true only for ASCII digits.
  Python's is also true for other Unicode digits, including ones such as "²"
  that `int()` rejects. Two consequences:
  - A `salesrank:` value such as "²" makes the source raise ValueError. The
    model stores None.
  - A `similar:` count such as "²" makes the source raise ValueError. The
    model keeps the previous count.
- Snap.FailsExactlyOnRejectedValue: the failures it characterises are the
  rejected `Id:` value and the rejected avg rating. The "²" salesrank and
  similar-count values above also raise in the source, and the model does not
  fail on them.
- CatPart.DigitEnd: `\d` in `CAT_PART_RE` matches every Unicode decimal digit.
  The model's pattern matches only ASCII digits, so a part such as `|A[١٢]` is
  recorded by the source and not by the model.
- `lower` is modelled on ASCII. `isspace` is modelled with Python's whitespace
  code points.
- Db.AddName: PostgreSQL also consumes a SERIAL value on an
  `ON CONFLICT DO NOTHING` insert that conflicts. The model advances the
  sequence only when a name is added, so its ids can be smaller than the
  database's. Only the equality of ids is relied on, never their values.
- The exception from `parse_snap` is modelled as a `failed` flag that ends the
  record pass. The records yielded before it are processed. The final flush
  does not happen.
- `seen_asins` is created and never used, so it has no counterpart.
- `CategoryLoad.ParentUpdates`: requires every entry whose parent is mapped to
  be mapped itself. The source would raise `KeyError` otherwise. It holds for
  the mapping `insert_categories` returns, which covers every old id.
- `CategoryLoad.UpdateParentIds`: carries the same requirement as `ParentUpdates`.
- `ProductLoad.ProcessProducts`: requires `batch_size > 0`. The source divides
  by it.
- `ProductLoad.Buffers.Flush`: clears every buffer, including the empty ones
  the source leaves alone. Both leave the buffers empty.
- The `next(iter(...))` sample that `main` prints is not modelled.
- tp1_3.3.py, tp1_3_2.py.py and db.py are not part of this model. They are
  variants of the same script and the connection helper.
