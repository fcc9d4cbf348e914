/** Category chain lines of the corpus, "|Books[283155]|Subjects[1000]|...":
    the matches of the pattern CAT_PART_RE, `\|([^|\[]+)\[(\d+)\]`, and the
    chain of (old id, name, parent old id) entries built from them. */
module CatPart {
  import opened Text

  /** The two groups of one match: the name text and the id digits. */
  datatype Part = Part(name: string, digits: string)

  /** One entry of a chain: the external (old) id, the stripped name and the
      old id of the entry before it on the same line. */
  datatype CatEntry = CatEntry(oldId: nat, name: string, parent: Option<nat>)

  /** A character of the group `[^|\[]`. */
  predicate NameChar(c: char) {
    c != '|' && c != '['
  }

  predicate ValidPart(p: Part) {
    && |p.name| > 0
    && (forall i :: 0 <= i < |p.name| ==> NameChar(p.name[i]))
    && IsDigits(p.digits)
  }

  predicate AllValid(ps: seq<Part>) {
    forall k :: 0 <= k < |ps| ==> ValidPart(ps[k])
  }

  /** The text one match covers. */
  function PartText(p: Part): string {
    "|" + p.name + "[" + p.digits + "]"
  }

  /** The text of a sequence of matches written back to back. */
  function Render(ps: seq<Part>): string {
    if ps == [] then "" else PartText(ps[0]) + Render(ps[1..])
  }

  /** End of the longest run of name characters starting at i. */
  function NameEnd(s: string, i: nat): (r: nat)
    requires i <= |s|
    ensures i <= r <= |s|
    ensures r < |s| ==> !NameChar(s[r])
    ensures forall j :: i <= j < r ==> NameChar(s[j])
    decreases |s| - i
  {
    if i == |s| || !NameChar(s[i]) then i else NameEnd(s, i + 1)
  }

  /** End of the longest run of digits starting at i. */
  function DigitEnd(s: string, i: nat): (r: nat)
    requires i <= |s|
    ensures i <= r <= |s|
    ensures r < |s| ==> !IsDigit(s[r])
    ensures forall j :: i <= j < r ==> IsDigit(s[j])
    decreases |s| - i
  {
    if i == |s| || !IsDigit(s[i]) then i else DigitEnd(s, i + 1)
  }

  /** The pattern tried at the start of s. Both groups are greedy and the
      character after each can never be one the group takes, so backtracking
      never finds a shorter match: a match exists exactly when the maximal
      name run is followed by '[' and the maximal digit run by ']'. The
      result is the groups and the length of the matched text. */
  function MatchAt(s: string): (r: Option<(Part, nat)>)
    ensures r.Some? ==> ValidPart(r.value.0)
    ensures r.Some? ==> r.value.1 == |PartText(r.value.0)| <= |s| && s[..r.value.1] == PartText(r.value.0)
  {
    if |s| == 0 || s[0] != '|' then None
    else
      var j := NameEnd(s, 1);
      if j == 1 || j == |s| || s[j] != '[' then None
      else
        var k := DigitEnd(s, j + 1);
        if k == j + 1 || k == |s| || s[k] != ']' then None
        else
          var p := Part(s[1..j], s[j + 1..k]);
          assert s[..k + 1] == PartText(p);
          Some((p, k + 1))
  }

  /** re.findall: non-overlapping matches, left to right; after a match the
      scan resumes at its end, otherwise one character further on. */
  function FindAll(s: string): seq<Part>
    decreases |s|
  {
    if s == [] then []
    else
      var m := MatchAt(s);
      if m.Some? then [m.value.0] + FindAll(s[m.value.1..]) else FindAll(s[1..])
  }

  /** Every match found satisfies the pattern's groups. */
  lemma {:induction false} FindAllValid(s: string)
    ensures AllValid(FindAll(s))
    decreases |s|
  {
    if s != [] {
      var m := MatchAt(s);
      if m.Some? {
        FindAllValid(s[m.value.1..]);
      } else {
        FindAllValid(s[1..]);
      }
    }
  }

  /** The scan skips, one character at a time, any text at which no match
      starts: findall on such a prefix followed by s finds what it finds on s. */
  lemma {:induction false} FindAllJunk(junk: string, s: string)
    requires forall i :: 0 <= i < |junk| ==> MatchAt(junk[i..] + s).None?
    ensures FindAll(junk + s) == FindAll(s)
    decreases |junk|
  {
    if junk == [] {
      assert junk + s == s;
    } else {
      assert junk[0..] == junk;
      assert (junk + s)[1..] == junk[1..] + s;
      forall i | 0 <= i < |junk[1..]| ensures MatchAt(junk[1..][i..] + s).None? {
        assert junk[1..][i..] == junk[i + 1..];
      }
      FindAllJunk(junk[1..], s);
    }
  }

  /** Whenever the input starts with the text of a valid part, the pattern
      matches exactly that part (the converse of MatchAt's postcondition). */
  lemma MatchAtPartText(p: Part, rest: string)
    requires ValidPart(p)
    ensures MatchAt(PartText(p) + rest) == Some((p, |PartText(p)|))
  {
    var s := PartText(p) + rest;
    var j := |p.name| + 1;
    var k := j + 1 + |p.digits|;
    assert s[j] == '[' && s[k] == ']';
    assert forall i :: 1 <= i < j ==> s[i] == p.name[i - 1];
    assert forall i :: j + 1 <= i < k ==> s[i] == p.digits[i - j - 1];
    NameEndStops(s, 1, j);
    DigitEndStops(s, j + 1, k);
    assert s[1..j] == p.name && s[j + 1..k] == p.digits;
  }

  lemma {:induction false} NameEndStops(s: string, i: nat, j: nat)
    requires i <= j < |s| && !NameChar(s[j])
    requires forall m :: i <= m < j ==> NameChar(s[m])
    ensures NameEnd(s, i) == j
    decreases j - i
  {
    if i < j {
      NameEndStops(s, i + 1, j);
    }
  }

  lemma {:induction false} DigitEndStops(s: string, i: nat, j: nat)
    requires i <= j < |s| && !IsDigit(s[j])
    requires forall m :: i <= m < j ==> IsDigit(s[m])
    ensures DigitEnd(s, i) == j
    decreases j - i
  {
    if i < j {
      DigitEndStops(s, i + 1, j);
    }
  }

  /** Parsing the text of a sequence of parts gives those parts back, and
      whatever follows is scanned on its own. */
  lemma {:induction false} FindAllRender(ps: seq<Part>, tail: string)
    requires AllValid(ps)
    ensures FindAll(Render(ps) + tail) == ps + FindAll(tail)
  {
    if ps == [] {
      assert Render(ps) + tail == tail;
    } else {
      var rest := Render(ps[1..]) + tail;
      assert Render(ps) + tail == PartText(ps[0]) + rest by {
        assert Render(ps) == PartText(ps[0]) + Render(ps[1..]);
      }
      assert ValidPart(ps[0]);
      FindAllPartText(ps[0], rest);
      assert AllValid(ps[1..]) by {
        forall k | 0 <= k < |ps| - 1 ensures ValidPart(ps[1..][k]) {
          assert ps[1..][k] == ps[k + 1];
        }
      }
      FindAllRender(ps[1..], tail);
      assert ps == [ps[0]] + ps[1..];
    }
  }

  lemma FindAllPartText(p: Part, rest: string)
    requires ValidPart(p)
    ensures FindAll(PartText(p) + rest) == [p] + FindAll(rest)
  {
    var s := PartText(p) + rest;
    MatchAtPartText(p, rest);
    assert s[|PartText(p)|..] == rest;
  }

  /** A line without '|' or without '[' has no matches: the pre-filter
      `'|' in line and '[' in line` of the first pass never discards a part. */
  lemma {:induction false} FindAllNeedsBoth(s: string)
    requires (forall i :: 0 <= i < |s| ==> s[i] != '|') || (forall i :: 0 <= i < |s| ==> s[i] != '[')
    ensures FindAll(s) == []
  {
    if s != [] {
      FindAllNeedsBoth(s[1..]);
    }
  }

  /** The entries of one chain line: position i's id becomes position i+1's parent. */
  function Chain(ps: seq<Part>, parent: Option<nat>): seq<CatEntry>
  {
    if ps == [] then []
    else
      var id := DigitsValue(ps[0].digits);
      [CatEntry(id, Strip(ps[0].name), parent)] + Chain(ps[1..], Some(id))
  }

  /** The entry one match contributes, given the id of the match before it. */
  function Entry(p: Part, parent: Option<nat>): CatEntry {
    CatEntry(DigitsValue(p.digits), Strip(p.name), parent)
  }

  lemma ChainStep(ps: seq<Part>, parent: Option<nat>)
    requires ps != []
    ensures Chain(ps, parent) == [Entry(ps[0], parent)] + Chain(ps[1..], Some(DigitsValue(ps[0].digits)))
  {
  }

  /** _parse_category_line_to_list, as a specification. */
  function ChainOf(line: string): seq<CatEntry> {
    Chain(FindAll(line), None)
  }

  /** One entry per match, in order, each with the match's id and stripped
      name; the first entry's parent is the given one and every later entry's
      parent is the id of the entry before it. */
  lemma {:induction false} ChainShape(ps: seq<Part>, parent: Option<nat>)
    ensures |Chain(ps, parent)| == |ps|
    ensures forall k :: 0 <= k < |ps| ==>
      Chain(ps, parent)[k].oldId == DigitsValue(ps[k].digits) && Chain(ps, parent)[k].name == Strip(ps[k].name)
    ensures |ps| > 0 ==> Chain(ps, parent)[0].parent == parent
    ensures forall k :: 1 <= k < |ps| ==> Chain(ps, parent)[k].parent == Some(Chain(ps, parent)[k - 1].oldId)
  {
    if ps != [] {
      var id := DigitsValue(ps[0].digits);
      var rest := Chain(ps[1..], Some(id));
      ChainShape(ps[1..], Some(id));
      ChainStep(ps, parent);
      var c := Chain(ps, parent);
      assert c == [Entry(ps[0], parent)] + rest;
      forall k | 1 <= k < |ps|
        ensures c[k].oldId == DigitsValue(ps[k].digits) && c[k].name == Strip(ps[k].name)
        ensures c[k].parent == Some(c[k - 1].oldId)
      {
        assert c[k] == rest[k - 1];
        assert ps[1..][k - 1] == ps[k];
        if k > 1 {
          assert c[k - 1] == rest[k - 2];
        }
      }
    }
  }

  /** The chain |A[1]|B[2]|C[3]| links 2 to 1 and 3 to 2. */
  lemma ThreeLevelChain()
    ensures ChainOf("|A[1]|B[2]|C[3]|")
         == [CatEntry(1, "A", None), CatEntry(2, "B", Some(1)), CatEntry(3, "C", Some(2))]
  {
    ThreeLevelParts();
    ThreeLevelEntries();
  }

  /** findall on |A[1]|B[2]|C[3]| returns the three parts, in order. */
  lemma ThreeLevelParts()
    ensures FindAll("|A[1]|B[2]|C[3]|") == [Part("A", "1"), Part("B", "2"), Part("C", "3")]
  {
    var ps := [Part("A", "1"), Part("B", "2"), Part("C", "3")];
    assert Render(ps[2..]) == PartText(ps[2]) + Render([]);
    assert Render(ps[1..]) == PartText(ps[1]) + Render(ps[2..]);
    assert Render(ps) == PartText(ps[0]) + Render(ps[1..]);
    assert Render(ps) + "|" == "|A[1]|B[2]|C[3]|";
    FindAllRender(ps, "|");
    assert FindAll("|") == [];
  }

  /** The three parts chain with each id the parent of the next. */
  lemma ThreeLevelEntries()
    ensures Chain([Part("A", "1"), Part("B", "2"), Part("C", "3")], None)
         == [CatEntry(1, "A", None), CatEntry(2, "B", Some(1)), CatEntry(3, "C", Some(2))]
  {
    var ps := [Part("A", "1"), Part("B", "2"), Part("C", "3")];
    assert DigitsValue("1") == 1 && DigitsValue("2") == 2 && DigitsValue("3") == 3;
    StripUntrimmed("A");
    StripUntrimmed("B");
    StripUntrimmed("C");
    ChainStep(ps[2..], Some(2));
    ChainStep(ps[1..], Some(1));
    ChainStep(ps, None);
    assert ps[2..][1..] == [];
    assert ps[1..][1..] == ps[2..];
  }

  /** _parse_category_line_to_list: walks the matches, appending one entry
      per match and carrying the previous id as the next parent. */
  method ParseCategoryLine(line: string) returns (cats: seq<CatEntry>)
    ensures cats == ChainOf(line)
  {
    var parts := FindAll(line);
    cats := [];
    var parentId: Option<nat> := None;
    var i := 0;
    while i < |parts|
      invariant 0 <= i <= |parts|
      invariant cats + Chain(parts[i..], parentId) == Chain(parts, None)
    {
      var oldId := DigitsValue(parts[i].digits);
      var name := Strip(parts[i].name);
      ChainStep(parts[i..], parentId);
      assert parts[i..][1..] == parts[i + 1..];
      ConcatAssoc(cats, [CatEntry(oldId, name, parentId)], Chain(parts[i + 1..], Some(oldId)));
      cats := cats + [CatEntry(oldId, name, parentId)];
      parentId := Some(oldId);
      i := i + 1;
    }
  }
}
