/**
 * How a parsed cell is merged into the long-lived test suite (src/robotkernel/builders.py):
 * keyword and variable lists are deduplicated by name, the cell's tests are appended, and the
 * task/test mode of the cell is detected.
 */
module Builders {
  import opened Common
  import opened Seqs
  import OrderedDicts

  /**
   * A keyword, variable or test as the parser builds it. `id` stands for the identity of the
   * Python object: two parses of the same text give different objects.
   */
  datatype Item = Item(id: nat, name: string, args: seq<string>, body: string)

  /** The sections of a parsed file; only test case sections carry a `tasks` flag. */
  datatype Section =
    | SettingSection(imports: seq<string>)
    | VariableSection(variables: seq<Item>)
    | KeywordSection(keywords: seq<Item>)
    | TestCaseSection(tasks: bool, tests: seq<Item>)
    | CommentSection

  /** The model `get_model` returns, with the syntax errors `ErrorReporter` reports. */
  datatype File = File(sections: seq<Section>, errors: seq<string>)

  const MixedModeMessage := "One file cannot have both tests and tasks."

  function Names(items: seq<Item>): (r: seq<string>)
    ensures |r| == |items|
    ensures forall i | 0 <= i < |items| :: r[i] == items[i].name
  {
    seq(|items|, i requires 0 <= i < |items| => items[i].name)
  }

  // ---------------------------------------------------------------------------------------
  // _get_rpa_mode

  /** `[s.tasks for s in data.sections if hasattr(s, "tasks")]` */
  function TaskFlags(sections: seq<Section>): seq<bool>
  {
    if sections == [] then []
    else (if sections[0].TestCaseSection? then [sections[0].tasks] else []) + TaskFlags(sections[1..])
  }

  /** Some test case section of `sections` has the flag `tasks`. */
  predicate HasSectionWith(sections: seq<Section>, tasks: bool)
  {
    exists i | 0 <= i < |sections| :: sections[i].TestCaseSection? && sections[i].tasks == tasks
  }

  /** A flag is collected exactly when some test case section carries it. */
  lemma {:induction false} TaskFlagsSpec(sections: seq<Section>)
    ensures forall b: bool :: b in TaskFlags(sections) <==> HasSectionWith(sections, b)
  {
    if sections != [] {
      TaskFlagsSpec(sections[1..]);
      forall b: bool
        ensures HasSectionWith(sections, b) <==>
                  (sections[0].TestCaseSection? && sections[0].tasks == b) || HasSectionWith(sections[1..], b)
      {
        if HasSectionWith(sections, b) {
          var i :| 0 <= i < |sections| && sections[i].TestCaseSection? && sections[i].tasks == b;
          if i > 0 {
            assert sections[1..][i - 1] == sections[i];
          }
        }
        if HasSectionWith(sections[1..], b) {
          var i :| 0 <= i < |sections[1..]| && sections[1..][i].TestCaseSection? && sections[1..][i].tasks == b;
          assert sections[i + 1] == sections[1..][i];
        }
      }
    }
  }

  /**
   * `_get_rpa_mode`: `data` is `None` when the model is falsy. The result is the mode every
   * test case section agrees on, `None` when there is none, and `DataError` when they differ.
   */
  function RpaMode(data: Option<File>): Result<Option<bool>>
  {
    if data.None? then Ok(None)
    else
      var tasks := TaskFlags(data.value.sections);
      if false !in tasks || true !in tasks then Ok(if tasks == [] then None else Some(tasks[0]))
      else Err(DataError(MixedModeMessage))
  }

  predicate HasTestSection(sections: seq<Section>)
  {
    exists i | 0 <= i < |sections| :: sections[i].TestCaseSection?
  }

  /** Every test case section of `sections` has the given `tasks` flag. */
  predicate AllSectionsAre(sections: seq<Section>, tasks: bool)
  {
    forall i | 0 <= i < |sections| && sections[i].TestCaseSection? :: sections[i].tasks == tasks
  }

  /** The four outcomes of the mode detection, each with the condition that yields it. */
  lemma RpaModeCases(data: Option<File>)
    ensures RpaMode(data) == Ok(None) <==> data.None? || !HasTestSection(data.value.sections)
    ensures RpaMode(data) == Ok(Some(true)) <==>
              data.Some? && HasTestSection(data.value.sections) && AllSectionsAre(data.value.sections, true)
    ensures RpaMode(data) == Ok(Some(false)) <==>
              data.Some? && HasTestSection(data.value.sections) && AllSectionsAre(data.value.sections, false)
    ensures RpaMode(data) == Err(DataError(MixedModeMessage)) <==>
              data.Some? && !AllSectionsAre(data.value.sections, true) && !AllSectionsAre(data.value.sections, false)
  {
    if data.Some? {
      var s := data.value.sections;
      var tasks := TaskFlags(s);
      TaskFlagsSpec(s);
      assert tasks == [] <==> !HasTestSection(s) by {
        if tasks != [] {
          assert tasks[0] in tasks;
          assert HasSectionWith(s, tasks[0]);
          var i :| 0 <= i < |s| && s[i].TestCaseSection? && s[i].tasks == tasks[0];
          assert HasTestSection(s);
        }
        if HasTestSection(s) {
          var i :| 0 <= i < |s| && s[i].TestCaseSection?;
          assert HasSectionWith(s, s[i].tasks);
        }
      }
      assert false !in tasks <==> AllSectionsAre(s, true);
      assert true !in tasks <==> AllSectionsAre(s, false);
      if tasks == [] {
        assert RpaMode(data) == Ok(None);
      } else if false !in tasks {
        assert tasks[0] in tasks && tasks[0] == true;
        assert RpaMode(data) == Ok(Some(true));
      } else if true !in tasks {
        assert tasks[0] in tasks && tasks[0] == false;
        assert RpaMode(data) == Ok(Some(false));
      } else {
        assert RpaMode(data) == Err(DataError(MixedModeMessage));
      }
    }
  }

  // ---------------------------------------------------------------------------------------
  // strip_duplicate_items: the dictionary it builds, and what that dictionary promises

  /** The dictionary `new_items` after the loop of `strip_duplicate_items` has seen `items`. */
  function Collect(items: seq<Item>): (d: OrderedDicts.Dict<string, Item>)
    ensures OrderedDicts.Valid(d)
  {
    if items == [] then OrderedDicts.Empty()
    else
      var last := items[|items| - 1];
      OrderedDicts.Put(Collect(items[..|items| - 1]), last.name, last)
  }

  /** `list(new_items.values())`: what `strip_duplicate_items` leaves in the list. */
  function Dedup(items: seq<Item>): seq<Item>
  {
    OrderedDicts.Values(Collect(items))
  }

  /** The index of the last item called `name`. */
  function LastIndex(items: seq<Item>, name: string): (j: nat)
    requires name in Names(items)
    ensures j < |items| && items[j].name == name
    ensures forall m | j < m < |items| :: items[m].name != name
  {
    if items[|items| - 1].name == name then |items| - 1
    else
      assert Names(items) == Names(items[..|items| - 1]) + [items[|items| - 1].name];
      LastIndex(items[..|items| - 1], name)
  }

  /** Keys come in order of first occurrence and every key holds the last item of that name. */
  lemma CollectSpec(items: seq<Item>)
    ensures Collect(items).keys == Uniq(Names(items))
    ensures forall k | k in Collect(items).vals :: k in Names(items) && Collect(items).vals[k] == items[LastIndex(items, k)]
  {
    CollectKeys(items);
    CollectValues(items);
  }

  lemma {:induction false} CollectKeys(items: seq<Item>)
    ensures Collect(items).keys == Uniq(Names(items))
  {
    if items != [] {
      var p := items[..|items| - 1];
      var x := items[|items| - 1];
      CollectKeys(p);
      assert Names(items) == Names(p) + [x.name];
      UniqSnoc(Names(p), x.name);
      assert x.name in Collect(p).vals <==> x.name in Names(p);
    }
  }

  lemma {:induction false} CollectValues(items: seq<Item>)
    ensures forall k | k in Collect(items).vals :: k in Names(items) && Collect(items).vals[k] == items[LastIndex(items, k)]
  {
    if items != [] {
      var p := items[..|items| - 1];
      var x := items[|items| - 1];
      CollectValues(p);
      assert Names(items) == Names(p) + [x.name];
      forall k | k in Collect(items).vals
        ensures k in Names(items) && Collect(items).vals[k] == items[LastIndex(items, k)]
      {
        if k != x.name {
          assert k in Collect(p).vals;
          assert LastIndex(items, k) == LastIndex(p, k);
          assert items[LastIndex(p, k)] == p[LastIndex(p, k)];
        }
      }
    }
  }

  /** After deduplication the names are those of the input, once each, in first-seen order. */
  lemma DedupNames(items: seq<Item>)
    ensures Names(Dedup(items)) == Uniq(Names(items))
    ensures Distinct(Names(Dedup(items)))
    ensures forall n | n in Names(items) :: n in Names(Dedup(items))
    ensures forall n | n in Names(Dedup(items)) :: n in Names(items)
  {
    CollectSpec(items);
    var d := Collect(items);
    forall i | 0 <= i < |d.keys| ensures Names(Dedup(items))[i] == d.keys[i] {
      assert d.keys[i] in d.vals;
    }
  }

  /** Each surviving item is the last input item with its name. */
  lemma DedupLastWins(items: seq<Item>)
    ensures forall i | 0 <= i < |Dedup(items)| ::
              Dedup(items)[i].name in Names(items) && Dedup(items)[i] == items[LastIndex(items, Dedup(items)[i].name)]
  {
    CollectSpec(items);
    var d := Collect(items);
    forall i | 0 <= i < |Dedup(items)|
      ensures Dedup(items)[i].name in Names(items) && Dedup(items)[i] == items[LastIndex(items, Dedup(items)[i].name)]
    {
      assert d.keys[i] in d.vals;
      assert Dedup(items)[i] == d.vals[d.keys[i]];
    }
  }

  /** With unique names, the last item of each name is that item itself. */
  lemma LastIndexOfUnique(items: seq<Item>, i: nat)
    requires Distinct(Names(items)) && i < |items|
    ensures items[i].name in Names(items) && LastIndex(items, items[i].name) == i
  {
    var ns := Names(items);
    assert ns[i] == items[i].name;
    var j := LastIndex(items, ns[i]);
    assert ns[j] == ns[i];
    DistinctIndex(ns, i, j);
  }

  /** A list whose names are already unique is left as it is. */
  lemma DedupOfUnique(items: seq<Item>)
    requires Distinct(Names(items))
    ensures Dedup(items) == items
  {
    DedupNames(items);
    DedupLastWins(items);
    UniqOfDistinct(Names(items));
    var r := Dedup(items);
    assert |r| == |items|;
    forall i | 0 <= i < |items| ensures r[i] == items[i] {
      assert r[i].name == Names(r)[i] == Names(items)[i];
      LastIndexOfUnique(items, i);
    }
  }

  /** Deduplicating twice is deduplicating once. */
  lemma DedupIdempotent(items: seq<Item>)
    ensures Dedup(Dedup(items)) == Dedup(items)
  {
    DedupNames(items);
    DedupOfUnique(Dedup(items));
  }

  // ---------------------------------------------------------------------------------------
  // The item lists of the suite

  /** A Robot item list; `items` is its `_items` attribute. */
  class ItemList {
    var items: seq<Item>

    constructor (items: seq<Item>)
      ensures this.items == items
    {
      this.items := items;
    }

    /** `strip_duplicate_items(items)` */
    method StripDuplicateItems()
      modifies this
      ensures items == Dedup(old(items))
    {
      var newItems := OrderedDicts.Empty();
      for i := 0 to |items|
        invariant newItems == Collect(items[..i])
      {
        var item := items[i];
        assert items[..i + 1][..i] == items[..i];
        newItems := OrderedDicts.Put(newItems, item.name, item);
      }
      assert items[..|items|] == items;
      items := OrderedDicts.Values(newItems);
    }

    /** `clean_items(items)` */
    method CleanItems()
      modifies this
      ensures items == []
    {
      items := [];
    }
  }

  /** The accumulated suite: its resource's keywords and variables, its tests and its mode. */
  class Suite {
    const keywords: ItemList
    const variables: ItemList
    const tests: ItemList
    var imports: seq<string>
    var rpa: Option<bool>

    ghost predicate Valid()
    {
      keywords != variables && keywords != tests && variables != tests
    }

    constructor ()
      ensures Valid() && fresh(keywords) && fresh(variables) && fresh(tests)
      ensures keywords.items == [] && variables.items == [] && tests.items == []
      ensures imports == [] && rpa == None
    {
      keywords := new ItemList([]);
      variables := new ItemList([]);
      tests := new ItemList([]);
      imports := [];
      rpa := None;
    }

    /**
     * `deepcopy(suite)`: a new suite with new item lists and the same contents. The copy also
     * gets new item objects; items are values here, so sharing them is not observable.
     */
    method Copy() returns (c: Suite)
      ensures fresh(c) && fresh(c.keywords) && fresh(c.variables) && fresh(c.tests) && c.Valid()
      ensures c.keywords.items == keywords.items && c.variables.items == variables.items
      ensures c.tests.items == tests.items && c.imports == imports && c.rpa == rpa
    {
      c := new Suite();
      c.keywords.items := keywords.items;
      c.variables.items := variables.items;
      c.tests.items := tests.items;
      c.imports := imports;
      c.rpa := rpa;
    }
  }

  // ---------------------------------------------------------------------------------------
  // What SettingsBuilder and SuiteBuilder take from the sections

  function Imports(sections: seq<Section>): seq<string>
  {
    if sections == [] then []
    else (if sections[0].SettingSection? then sections[0].imports else []) + Imports(sections[1..])
  }

  function SectionKeywords(sections: seq<Section>): seq<Item>
  {
    if sections == [] then []
    else (if sections[0].KeywordSection? then sections[0].keywords else []) + SectionKeywords(sections[1..])
  }

  function SectionVariables(sections: seq<Section>): seq<Item>
  {
    if sections == [] then []
    else (if sections[0].VariableSection? then sections[0].variables else []) + SectionVariables(sections[1..])
  }

  function SectionTests(sections: seq<Section>): seq<Item>
  {
    if sections == [] then []
    else (if sections[0].TestCaseSection? then sections[0].tests else []) + SectionTests(sections[1..])
  }

  /**
   * `populate_suite`: report syntax errors before touching the suite, append the parsed
   * imports, keywords, variables and tests, deduplicate keywords and variables, and only then
   * detect the mode, so a mixed-mode cell raises with its items already merged.
   */
  method PopulateSuite(file: File, suite: Suite) returns (r: Result<()>)
    requires suite.Valid()
    modifies suite, suite.keywords, suite.variables, suite.tests
    ensures file.errors != [] ==>
              && r == Err(DataError(file.errors[0]))
              && unchanged(suite, suite.keywords, suite.variables, suite.tests)
    ensures file.errors == [] ==>
              && suite.imports == old(suite.imports) + Imports(file.sections)
              && suite.keywords.items == Dedup(old(suite.keywords.items) + SectionKeywords(file.sections))
              && suite.variables.items == Dedup(old(suite.variables.items) + SectionVariables(file.sections))
              && suite.tests.items == old(suite.tests.items) + SectionTests(file.sections)
              && match RpaMode(Some(file))
                 case Ok(mode) => r == Ok(()) && suite.rpa == mode
                 case Err(e) => r == Err(e) && suite.rpa == old(suite.rpa)
  {
    // A reported parse error aborts the merge before anything is added.
    if file.errors != [] {
      return Err(DataError(file.errors[0]));
    }
    // The settings section contributes the imports.
    suite.imports := suite.imports + Imports(file.sections);
    // The other sections contribute keywords, variables and tests; then names are made unique.
    suite.keywords.items := suite.keywords.items + SectionKeywords(file.sections);
    suite.variables.items := suite.variables.items + SectionVariables(file.sections);
    suite.tests.items := suite.tests.items + SectionTests(file.sections);
    suite.keywords.StripDuplicateItems();
    suite.variables.StripDuplicateItems();
    var mode := RpaMode(Some(file));
    if mode.Err? {
      return Err(mode.error);
    }
    suite.rpa := mode.value;
    r := Ok(());
  }

  /** The unit of tests/test_builders.py: one keyword `Head` and one task `Get head`. */
  method HeadUnitExample() returns (keywordCount: nat, testCount: nat, rpa: Option<bool>)
    ensures keywordCount == 1 && testCount == 1 && rpa == Some(true)
  {
    var head := Item(1, "Head", ["${list}"], "${value}=  Get from list  ${list}  0");
    var task := Item(2, "Get head", [], "${array}=  Create list  1  2  3  4  5");
    var file := File([SettingSection(["Collections"]), KeywordSection([head]), TestCaseSection(true, [task])], []);
    var suite := new Suite();
    var r := PopulateSuite(file, suite);
    var s := file.sections;
    assert s[1..] == [KeywordSection([head]), TestCaseSection(true, [task])];
    assert s[1..][1..] == [TestCaseSection(true, [task])];
    assert s[1..][1..][1..] == [];
    assert SectionKeywords(s[1..][1..]) == [] + SectionKeywords(s[1..][1..][1..]) == [];
    assert SectionKeywords(s[1..]) == [head] + SectionKeywords(s[1..][1..]) == [head];
    assert SectionKeywords(file.sections) == [head];
    assert SectionTests(s[1..][1..]) == [task] + SectionTests(s[1..][1..][1..]) == [task];
    assert TaskFlags(s[1..][1..]) == [true] + TaskFlags(s[1..][1..][1..]) == [true];
    assert Collect([head]).keys == ["Head"];
    assert |suite.keywords.items| == 1;
    assert SectionTests(file.sections) == [task];
    assert |suite.tests.items| == 1;
    assert TaskFlags(file.sections) == [true];
    assert r == Ok(()) && suite.rpa == Some(true);
    keywordCount, testCount, rpa := |suite.keywords.items|, |suite.tests.items|, suite.rpa;
  }
}
