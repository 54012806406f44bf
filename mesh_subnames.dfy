/**
 * The MeSH subtree selection of scripts/create_xlinear_bertmesh_comparison_csv.py:
 * reading the term and tree-letter lists, reading a descriptor record,
 * the two-pass scans that collect every descriptor name under the chosen
 * tree numbers, and the final row filter on the collected names.
 */
module MeshSubnames {
  import opened Wrappers
  import opened Text
  import Collections

  // ---------------------------------------------------------------------
  // The list files (lines 16-42)
  // ---------------------------------------------------------------------

  /** `load_mesh_terms_from_file` on the lines of the file (`readlines`,
      which keeps the line ends): each line stripped. */
  function LoadMeshTerms(lines: seq<string>): (terms: seq<string>)
    ensures |terms| == |lines|
    ensures forall i :: 0 <= i < |lines| ==> IsStripOf(terms[i], lines[i])
  {
    seq(|lines|, i requires 0 <= i < |lines| => Strip(lines[i]))
  }

  /** Loading an already loaded list changes nothing. */
  lemma LoadMeshTermsIdempotent(lines: seq<string>)
    ensures LoadMeshTerms(LoadMeshTerms(lines)) == LoadMeshTerms(lines)
  {
    forall i | 0 <= i < |lines|
      ensures Strip(Strip(lines[i])) == Strip(lines[i])
    {
      StripIdempotent(lines[i]);
    }
  }

  /** The `IndexError` of a line without `": "`, or the failed check that
      every term was found (with the terms not found). */
  datatype SubnameError = MissingSeparator | TermsNotFound(missing: set<string>)

  /** `code.strip().split(": ")[1]` */
  function NodeLetter(line: string): (r: Result<string, SubnameError>)
    ensures r.Success? ==> !Occurs(": ", r.value)
  {
    var parts := Split(Strip(line), ": ");
    SplitPiecesFree(Strip(line), ": ");
    if |parts| >= 2 then Success(parts[1]) else Failure(MissingSeparator)
  }

  /** A list comprehension whose element expression may raise: the values
      in order, or the first exception. */
  function FirstFailure(rs: seq<Result<string, SubnameError>>): (r: Result<seq<string>, SubnameError>)
    ensures r.Success? ==> |r.value| == |rs|
  {
    if rs == [] then Success([])
    else
      var prev := FirstFailure(rs[..|rs| - 1]);
      var last := rs[|rs| - 1];
      if prev.Failure? then Failure(prev.error)
      else if last.Failure? then Failure(last.error)
      else Success(prev.value + [last.value])
  }

  /** The collected values are the elements' values, and the comprehension
      raises exactly when some element does, with that element's error. */
  lemma {:induction false} FirstFailurePointwise(rs: seq<Result<string, SubnameError>>)
    ensures var r := FirstFailure(rs);
      r.Success? ==> forall i :: 0 <= i < |rs| ==> rs[i] == Success(r.value[i])
    ensures var r := FirstFailure(rs);
      r.Failure? ==> exists i :: 0 <= i < |rs| && rs[i] == Failure(r.error)
    ensures FirstFailure(rs).Failure? <==> exists i :: 0 <= i < |rs| && rs[i].Failure?
  {
    if rs != [] {
      var n := |rs| - 1;
      var prefix := rs[..n];
      FirstFailurePointwise(prefix);
      var prev := FirstFailure(prefix);
      var r := FirstFailure(rs);
      assert forall i :: 0 <= i < n ==> prefix[i] == rs[i];
      if prev.Success? && rs[n].Success? {
        assert r.value == prev.value + [rs[n].value];
        forall i | 0 <= i < |rs|
          ensures rs[i] == Success(r.value[i])
        {
          if i < n {
            assert prefix[i] == Success(prev.value[i]);
          }
        }
      } else if prev.Failure? {
        var i :| 0 <= i < n && prefix[i] == Failure(prev.error);
        assert rs[i] == Failure(r.error);
      }
    }
  }

  /** `load_mesh_tree_node_letters` on the lines of the file: the field after
      the first `": "` of each stripped line; a line without one raises. */
  function LoadTreeNodeLetters(lines: seq<string>): (r: Result<seq<string>, SubnameError>)
    ensures r.Success? ==> |r.value| == |lines|
    ensures r.Failure? ==> r.error == MissingSeparator
  {
    var rs := seq(|lines|, i requires 0 <= i < |lines| => NodeLetter(lines[i]));
    FirstFailurePointwise(rs);
    FirstFailure(rs)
  }

  /** The loaded letters are the lines' letters, one per line, and loading
      fails exactly when some line has none. */
  lemma LoadTreeNodeLettersPointwise(lines: seq<string>)
    ensures var r := LoadTreeNodeLetters(lines);
      r.Success? ==> forall i :: 0 <= i < |lines| ==> NodeLetter(lines[i]) == Success(r.value[i])
    ensures LoadTreeNodeLetters(lines).Failure? <==> exists i :: 0 <= i < |lines| && NodeLetter(lines[i]).Failure?
  {
    var rs := seq(|lines|, i requires 0 <= i < |lines| => NodeLetter(lines[i]));
    FirstFailurePointwise(rs);
    assert LoadTreeNodeLetters(lines) == FirstFailure(rs);
  }

  /** A line yields a letter exactly when its stripped form contains `": "`;
      the letter is what follows the first separator, up to the next one or
      to the end of the stripped line. */
  lemma NodeLetterMeaning(line: string)
    ensures NodeLetter(line).Success? <==> Occurs(": ", Strip(line))
    ensures NodeLetter(line).Success? ==>
      var s := Strip(line);
      var letter := NodeLetter(line).value;
      && !Occurs(": ", letter)
      && exists name ::
        && StartsWith(s, name + ": " + letter) && !Occurs(": ", name)
        && (s == name + ": " + letter || StartsWith(s, name + ": " + letter + ": "))
  {
    var s := Strip(line);
    SplitSingleIffAbsent(s, ": ");
    if Occurs(": ", s) {
      SplitSecondPiece(s, ": ");
      SplitSecondPieceEnd(s, ": ");
      SplitPiecesFree(s, ": ");
      var parts := Split(s, ": ");
      assert !Occurs(": ", parts[0]);
    }
  }

  /** Every line succeeds exactly when every stripped line contains `": "`. */
  lemma {:induction false} LoadTreeNodeLettersSucceeds(lines: seq<string>)
    ensures LoadTreeNodeLetters(lines).Success? <==> forall i :: 0 <= i < |lines| ==> Occurs(": ", Strip(lines[i]))
  {
    LoadTreeNodeLettersPointwise(lines);
    forall i | 0 <= i < |lines|
      ensures NodeLetter(lines[i]).Success? <==> Occurs(": ", Strip(lines[i]))
    {
      NodeLetterMeaning(lines[i]);
    }
  }

  // ---------------------------------------------------------------------
  // _extract_data (lines 45-53)
  // ---------------------------------------------------------------------

  /** An element of the descriptor XML: its text and its children. */
  datatype Element = Element(text: string, children: seq<Element>)

  /** The fields the scans read from a descriptor record. */
  datatype Descriptor = Descriptor(treeNumber: string, code: string, name: string)

  /** `elem[-2][0].text`, `elem[0].text` and `elem[1][0].text`; `None` when
      one of the indexings raises `IndexError`. */
  function ExtractData(e: Element): (d: Option<Descriptor>)
    ensures d.None? <==> var n := |e.children|;
      n < 2 || |e.children[n - 2].children| == 0 || |e.children[1].children| == 0
  {
    var n := |e.children|;
    if n >= 2 && |e.children[n - 2].children| >= 1 && |e.children[1].children| >= 1 then
      Some(Descriptor(e.children[n - 2].children[0].text, e.children[0].text, e.children[1].children[0].text))
    else None
  }

  /** A descriptor record laid out as in the MeSH XML: the identifier, the
      name, further children, the tree-number list and one last child. */
  function DescriptorRecord(ui: string, name: string, middle: seq<Element>, treeNumber: string, last: Element): Element {
    Element("", [Element(ui, []), Element("", [Element(name, [])])] + middle
                + [Element("", [Element(treeNumber, [])]), last])
  }

  /** Reading a record in that layout gives back its fields. */
  lemma ExtractDataOfRecord(ui: string, name: string, middle: seq<Element>, treeNumber: string, last: Element)
    ensures ExtractData(DescriptorRecord(ui, name, middle, treeNumber, last)) == Some(Descriptor(treeNumber, ui, name))
  {
    var e := DescriptorRecord(ui, name, middle, treeNumber, last);
    var n := |e.children|;
    assert e.children[n - 2] == Element("", [Element(treeNumber, [])]);
  }

  // ---------------------------------------------------------------------
  // The scans (lines 56-156)
  // ---------------------------------------------------------------------

  /** `s` starts with one of `prefixes`. */
  predicate HasPrefixIn(s: string, prefixes: seq<string>) {
    exists p :: p in prefixes && StartsWith(s, p)
  }

  /** The test a scan applies to a descriptor. */
  datatype Criterion = NameIn(terms: seq<string>) | TreeUnder(prefixes: seq<string>)

  predicate Meets(d: Descriptor, c: Criterion) {
    match c
    case NameIn(terms) => d.name in terms
    case TreeUnder(prefixes) => HasPrefixIn(d.treeNumber, prefixes)
  }

  /** The readable descriptors of `elems` that meet `c`, in element order. */
  function Selected(elems: seq<Element>, c: Criterion): (ds: seq<Descriptor>)
    ensures forall d :: d in ds ==> Meets(d, c)
  {
    if elems == [] then []
    else
      var prev := Selected(elems[..|elems| - 1], c);
      match ExtractData(elems[|elems| - 1])
      case None => prev
      case Some(d) => if Meets(d, c) then prev + [d] else prev
  }

  function TreeNumbersOf(ds: seq<Descriptor>): seq<string> {
    seq(|ds|, i requires 0 <= i < |ds| => ds[i].treeNumber)
  }

  function NamesOf(ds: seq<Descriptor>): seq<string> {
    seq(|ds|, i requires 0 <= i < |ds| => ds[i].name)
  }

  /** A descriptor is selected exactly when some element reads as it and it
      meets the criterion; each element contributes at most once. */
  lemma {:induction false} SelectedMembership(elems: seq<Element>, c: Criterion)
    ensures |Selected(elems, c)| <= |elems|
    ensures forall d :: d in Selected(elems, c) <==>
      Meets(d, c) && exists i :: 0 <= i < |elems| && ExtractData(elems[i]) == Some(d)
  {
    if elems != [] {
      var n := |elems| - 1;
      SelectedMembership(elems[..n], c);
      assert forall i :: 0 <= i < n ==> elems[..n][i] == elems[i];
    }
  }

  /** Two criteria that agree on every readable descriptor select the same. */
  lemma {:induction false} SelectedCongruence(elems: seq<Element>, c1: Criterion, c2: Criterion)
    requires forall i :: 0 <= i < |elems| && ExtractData(elems[i]).Some? ==>
      (Meets(ExtractData(elems[i]).value, c1) <==> Meets(ExtractData(elems[i]).value, c2))
    ensures Selected(elems, c1) == Selected(elems, c2)
  {
    if elems != [] {
      var n := |elems| - 1;
      assert forall i :: 0 <= i < n ==> elems[..n][i] == elems[i];
      SelectedCongruence(elems[..n], c1, c2);
    }
  }

  lemma SelectedSnoc(elems: seq<Element>, i: nat, c: Criterion)
    requires i < |elems|
    ensures Selected(elems[..i + 1], c) ==
      match ExtractData(elems[i])
      case None => Selected(elems[..i], c)
      case Some(d) => if Meets(d, c) then Selected(elems[..i], c) + [d] else Selected(elems[..i], c)
  {
    assert elems[..i + 1][..i] == elems[..i];
  }

  /** The inner `for ... if startswith ... break` loop. */
  method AnyPrefix(s: string, prefixes: seq<string>) returns (found: bool)
    ensures found <==> HasPrefixIn(s, prefixes)
  {
    found := false;
    for j := 0 to |prefixes|
      invariant !found ==> forall k :: 0 <= k < j ==> !StartsWith(s, prefixes[k])
      invariant found ==> HasPrefixIn(s, prefixes)
    {
      if StartsWith(s, prefixes[j]) {
        assert prefixes[j] in prefixes;
        found := true;
        break;
      }
    }
  }

  /** A first or second pass over the elements: the tree number and the name
      of every readable element meeting `c`, in element order. */
  method Scan(elems: seq<Element>, c: Criterion) returns (treeNumbers: seq<string>, names: seq<string>)
    ensures treeNumbers == TreeNumbersOf(Selected(elems, c))
    ensures names == NamesOf(Selected(elems, c))
  {
    treeNumbers, names := [], [];
    for i := 0 to |elems|
      invariant treeNumbers == TreeNumbersOf(Selected(elems[..i], c))
      invariant names == NamesOf(Selected(elems[..i], c))
    {
      SelectedSnoc(elems, i, c);
      var data := ExtractData(elems[i]);
      if data.None? {
        continue;
      }
      var d := data.value;
      var keep: bool;
      match c {
        case NameIn(terms) =>
          keep := d.name in terms;
        case TreeUnder(prefixes) =>
          keep := AnyPrefix(d.treeNumber, prefixes);
      }
      if keep {
        treeNumbers := treeNumbers + [d.treeNumber];
        names := names + [d.name];
      }
    }
    assert elems[..|elems|] == elems;
  }

  /** `find_subnames_from_terms` on the parsed XML and the lines of the term
      list: the names under the tree numbers of the listed terms, provided
      as many elements matched as there are terms. */
  method FindSubnamesFromTerms(elems: seq<Element>, termLines: seq<string>) returns (r: Result<seq<string>, SubnameError>)
    ensures var terms := LoadMeshTerms(termLines);
      var found := Selected(elems, NameIn(terms));
      && (r.Failure? <==> |found| != |terms|)
      && (r.Failure? ==> r.error == TermsNotFound((set t | t in terms) - (set t | t in NamesOf(found))))
      && (r.Success? ==> r.value == NamesOf(Selected(elems, TreeUnder(TreeNumbersOf(found)))))
  {
    var terms := LoadMeshTerms(termLines);
    var tops, found := Scan(elems, NameIn(terms));
    if |found| != |terms| {
      return Failure(TermsNotFound((set t | t in terms) - (set t | t in found)));
    }
    var _, subnames := Scan(elems, TreeUnder(tops));
    return Success(subnames);
  }

  /** `find_subnames_from_tree_nodes` on the parsed XML and the lines of the
      letter list. */
  method FindSubnamesFromTreeNodes(elems: seq<Element>, letterLines: seq<string>) returns (r: Result<seq<string>, SubnameError>)
    ensures var letters := LoadTreeNodeLetters(letterLines);
      && (r.Failure? <==> letters.Failure?)
      && (r.Success? ==> r.value == NamesOf(Selected(elems, TreeUnder(TreeNumbersOf(Selected(elems, TreeUnder(letters.value)))))))
  {
    var letters := LoadTreeNodeLetters(letterLines);
    if letters.Failure? {
      return Failure(letters.error);
    }
    var tops, _ := Scan(elems, TreeUnder(letters.value));
    var _, subnames := Scan(elems, TreeUnder(tops));
    return Success(subnames);
  }

  /** The two passes over tree letters select exactly the names whose own
      tree number starts with one of the letters: the second pass adds no
      element the first would not have chosen, and loses none. */
  lemma TreeNodeScanIsSinglePass(elems: seq<Element>, letters: seq<string>)
    ensures var tops := TreeNumbersOf(Selected(elems, TreeUnder(letters)));
      Selected(elems, TreeUnder(tops)) == Selected(elems, TreeUnder(letters))
  {
    var firsts := Selected(elems, TreeUnder(letters));
    var tops := TreeNumbersOf(firsts);
    SelectedMembership(elems, TreeUnder(letters));
    forall i | 0 <= i < |elems| && ExtractData(elems[i]).Some?
      ensures HasPrefixIn(ExtractData(elems[i]).value.treeNumber, tops) <==>
              HasPrefixIn(ExtractData(elems[i]).value.treeNumber, letters)
    {
      var d := ExtractData(elems[i]).value;
      if HasPrefixIn(d.treeNumber, letters) {
        assert d in firsts;
        var k :| 0 <= k < |firsts| && firsts[k] == d;
        assert tops[k] == d.treeNumber;
        assert StartsWith(d.treeNumber, d.treeNumber);
      }
      if HasPrefixIn(d.treeNumber, tops) {
        var top :| top in tops && StartsWith(d.treeNumber, top);
        var k :| 0 <= k < |tops| && tops[k] == top;
        assert firsts[k] in firsts;
        var letter :| letter in letters && StartsWith(top, letter);
        PrefixStartsWith(d.treeNumber, top, letter);
      }
    }
    SelectedCongruence(elems, TreeUnder(tops), TreeUnder(letters));
  }

  /** Every matched term is among its own subnames, since a tree number
      starts with itself. */
  lemma MatchedTermsAreSubnames(elems: seq<Element>, terms: seq<string>)
    ensures var found := Selected(elems, NameIn(terms));
      forall d :: d in found ==> d.name in NamesOf(Selected(elems, TreeUnder(TreeNumbersOf(found))))
  {
    var found := Selected(elems, NameIn(terms));
    var tops := TreeNumbersOf(found);
    var subs := Selected(elems, TreeUnder(tops));
    SelectedMembership(elems, NameIn(terms));
    SelectedMembership(elems, TreeUnder(tops));
    forall d | d in found
      ensures d.name in NamesOf(subs)
    {
      var k :| 0 <= k < |found| && found[k] == d;
      assert tops[k] == d.treeNumber;
      assert StartsWith(d.treeNumber, d.treeNumber);
      assert d in subs;
      var j :| 0 <= j < |subs| && subs[j] == d;
      assert NamesOf(subs)[j] == d.name;
    }
  }

  /** When the listed terms are distinct and the matching elements have
      distinct names, the count check passes exactly when every term was
      found. */
  lemma TermsCheck(elems: seq<Element>, terms: seq<string>)
    requires Collections.Distinct(terms)
    requires Collections.Distinct(NamesOf(Selected(elems, NameIn(terms))))
    ensures var names := NamesOf(Selected(elems, NameIn(terms)));
      |names| == |terms| <==> forall t :: t in terms ==> t in names
  {
    var found := Selected(elems, NameIn(terms));
    var names := NamesOf(found);
    SelectedMembership(elems, NameIn(terms));
    var setNames := set t | t in names;
    var setTerms := set t | t in terms;
    assert setNames <= setTerms by {
      forall t | t in names
        ensures t in terms
      {
        var k :| 0 <= k < |names| && names[k] == t;
        assert found[k] in found;
      }
    }
    DistinctCardinality(names);
    DistinctCardinality(terms);
    if |names| == |terms| {
      SubsetSameSize(setNames, setTerms);
      forall t | t in terms
        ensures t in names
      {
        assert t in setTerms;
      }
    }
    if forall t :: t in terms ==> t in names {
      assert setTerms <= setNames;
      assert setNames == setTerms;
    }
  }

  lemma {:induction false} DistinctCardinality(s: seq<string>)
    requires Collections.Distinct(s)
    ensures |set t | t in s| == |s|
  {
    if s != [] {
      var n := |s| - 1;
      DistinctCardinality(s[..n]);
      assert (set t | t in s) == (set t | t in s[..n]) + {s[n]} by {
        assert s == s[..n] + [s[n]];
      }
      assert s[n] !in (set t | t in s[..n]);
    }
  }

  lemma SubsetSameSize(a: set<string>, b: set<string>)
    requires a <= b && |a| == |b|
    ensures a == b
  {
    if a != b {
      var x :| x in b && x !in a;
      assert a <= b - {x};
      SubsetSize(a, b - {x});
    }
  }

  lemma {:induction false} SubsetSize(a: set<string>, b: set<string>)
    requires a <= b
    ensures |a| <= |b|
    decreases |b|
  {
    if a != {} {
      var x :| x in a;
      SubsetSize(a - {x}, b - {x});
    }
  }

  // ---------------------------------------------------------------------
  // The union and the row filter of create_comparison_csv (lines 182, 234-240)
  // ---------------------------------------------------------------------

  /** `set(subnames_from_terms).union(set(subnames_from_tree_letters))` */
  function AllSubnames(fromTerms: seq<string>, fromLetters: seq<string>): (names: set<string>)
    ensures forall t :: t in names <==> t in fromTerms || t in fromLetters
  {
    (set t | t in fromTerms) + (set t | t in fromLetters)
  }

  /** A sampled grant with the labels predicted for its abstract. */
  datatype Grant = Grant(abstractText: string, bertmeshTerms: seq<string>)

  /** With BERTMesh annotation on, only rows with a tag among the subnames
      are kept; otherwise the rows stay as they are. */
  function KeepRows(rows: seq<Grant>, subnames: set<string>, preAnnotateBertmesh: bool): (kept: seq<Grant>)
    ensures !preAnnotateBertmesh ==> kept == rows
    ensures preAnnotateBertmesh ==> |kept| <= |rows|
    ensures preAnnotateBertmesh ==>
      forall g :: g in kept <==> g in rows && exists t :: t in g.bertmeshTerms && t in subnames
  {
    if preAnnotateBertmesh then Collections.Filter(rows, (g: Grant) => exists t :: t in g.bertmeshTerms && t in subnames)
    else rows
  }
}
