/** src/robotkernel/completion_finders.py: completion of standard library names. */
module CompletionFinders {
  import opened Strings
  import opened Seqs

  /** A library name is offered when its lower-cased form starts with `needle`, as given. */
  predicate Offered(needle: string, lib: string)
  {
    StartsWith(Lower(lib), needle)
  }

  /** The libraries of `libs` that are offered, in the order of `libs`. */
  function LibraryMatches(needle: string, libs: seq<string>): (r: seq<string>)
    ensures |r| <= |libs|
  {
    if libs == [] then []
    else (if Offered(needle, libs[0]) then [libs[0]] else []) + LibraryMatches(needle, libs[1..])
  }

  lemma {:induction false} LibraryMatchesSnoc(needle: string, libs: seq<string>, lib: string)
    ensures LibraryMatches(needle, libs + [lib])
            == LibraryMatches(needle, libs) + (if Offered(needle, lib) then [lib] else [])
  {
    if libs == [] {
      assert [] + [lib] == [lib];
      assert [lib][1..] == [];
    } else {
      assert (libs + [lib])[1..] == libs[1..] + [lib];
      LibraryMatchesSnoc(needle, libs[1..], lib);
    }
  }

  /**
   * `complete_libraries(needle)` over the library names `libs` (`list(STDLIBS)`): the loop
   * appends every offered name.
   */
  method CompleteLibraries(needle: string, libs: seq<string>) returns (matches: seq<string>)
    ensures matches == LibraryMatches(needle, libs)
  {
    matches := [];
    for i := 0 to |libs|
      invariant matches == LibraryMatches(needle, libs[..i])
    {
      LibraryMatchesSnoc(needle, libs[..i], libs[i]);
      assert libs[..i + 1] == libs[..i] + [libs[i]];
      if Offered(needle, libs[i]) {
        matches := matches + [libs[i]];
      }
    }
    assert libs[..|libs|] == libs;
  }

  /** A name is returned exactly when it is one of the libraries and is offered. */
  lemma {:induction false} LibraryMatchesMembers(needle: string, libs: seq<string>)
    ensures forall m :: m in LibraryMatches(needle, libs) <==> m in libs && Offered(needle, m)
  {
    if libs != [] {
      LibraryMatchesMembers(needle, libs[1..]);
      assert libs == [libs[0]] + libs[1..];
    }
  }

  /** The result keeps the order of `libs`: it is `libs` with some names left out. */
  lemma {:induction false} LibraryMatchesOrdered(needle: string, libs: seq<string>)
    ensures IsSubseq(LibraryMatches(needle, libs), libs)
  {
    if libs != [] {
      var rest := LibraryMatches(needle, libs[1..]);
      LibraryMatchesOrdered(needle, libs[1..]);
      if Offered(needle, libs[0]) {
        assert ([libs[0]] + rest)[1..] == rest;
      } else {
        assert LibraryMatches(needle, libs) == rest;
        if rest != [] {
          LibraryMatchesMembers(needle, libs[1..]);
          assert rest[0] in rest;
          assert rest[0] != libs[0];
        }
      }
    }
  }

  /** An empty needle offers every library. */
  lemma {:induction false} EmptyNeedleOffersAll(libs: seq<string>)
    ensures LibraryMatches("", libs) == libs
  {
    if libs != [] {
      EmptyNeedleOffersAll(libs[1..]);
      assert Offered("", libs[0]);
    }
  }

  /**
   * The needle is not lower-cased here: a needle with an upper-case letter matches nothing,
   * which is why the kernel lower-cases it before calling.
   */
  lemma UpperNeedleOffersNothing(needle: string, libs: seq<string>, k: nat)
    requires k < |needle| && IsUpper(needle[k])
    ensures LibraryMatches(needle, libs) == []
  {
    LibraryMatchesMembers(needle, libs);
    forall m | m in libs ensures !Offered(needle, m) {
      if k < |Lower(m)| {
        assert Lower(m)[k] == LowerChar(m[k]);
      }
    }
    if LibraryMatches(needle, libs) != [] {
      assert LibraryMatches(needle, libs)[0] in LibraryMatches(needle, libs);
    }
  }
}
