/**
 The city selection: `toggleCity` rebuilds the selection through a `Set` and flips one code,
 `selectAllCities` clears a selection as long as the catalog and sets the whole catalog
 otherwise.
 */
module CitySelection {
  import opened JsRuntime
  import opened Cities

  /** The selection `toggleCity(code)` stores: `Array.from` of the `Set` built from `prev` with
      `code` deleted when present and added when absent. */
  function ToggledSelection(prev: seq<string>, code: string): (r: seq<string>)
    ensures NoDuplicates(r)
    ensures code in r <==> code !in prev
    ensures forall c :: c != code ==> (c in r <==> c in prev)
  {
    var s := SetFrom(prev);
    if code in s then SetDelete(s, code) else SetAdd(s, code)
  }

  /** Toggling a code twice restores the set of selected codes. */
  lemma {:induction false} ToggleTwiceSameMembers(prev: seq<string>, code: string, c: string)
    ensures c in ToggledSelection(ToggledSelection(prev, code), code) <==> c in prev
  {
  }

  /** Switching an unselected city on and straight off again gives back a duplicate-free
      selection exactly, order included. */
  lemma {:induction false} ToggleOnThenOff(prev: seq<string>, code: string)
    requires NoDuplicates(prev) && code !in prev
    ensures ToggledSelection(prev, code) == prev + [code]
    ensures ToggledSelection(ToggledSelection(prev, code), code) == prev
  {
    SetFromDistinct(prev);
    var on := prev + [code];
    assert NoDuplicates(on);
    SetFromDistinct(on);
    SetDeleteAppend(prev, [code], code);
    assert SetDelete([code], code) == [];
  }

  /** Switching a selected city off and on again moves it to the end of the selection. */
  lemma {:induction false} ToggleOffThenOn(prev: seq<string>, code: string)
    requires NoDuplicates(prev) && code in prev
    ensures ToggledSelection(ToggledSelection(prev, code), code) == SetDelete(prev, code) + [code]
  {
    SetFromDistinct(prev);
    var off := SetDelete(prev, code);
    SetFromDistinct(off);
  }

  /** So toggling twice need not restore the order: SP switched off and on behind RIO. */
  lemma {:induction false} ToggleTwiceReorders(prev: seq<string>)
    requires prev == ["SP", "RIO"]
    ensures ToggledSelection(ToggledSelection(prev, "SP"), "SP") == ["RIO", "SP"]
  {
    assert NoDuplicates(prev);
    ToggleOffThenOn(prev, "SP");
    assert prev[1..] == ["RIO"];
    assert SetDelete(["RIO"], "SP") == ["RIO"];
  }

  /** What `selectAllCities` stores: nothing when the selection is as long as the catalog, the
      whole catalog in catalog order otherwise. */
  function SelectAll(prev: seq<string>): (r: seq<string>)
    ensures r == [] <==> |prev| == |CITIES|
    ensures r != [] ==> r == CatalogCodes()
  {
    CatalogShape();
    if |prev| == |CITIES| then [] else CatalogCodes()
  }

  /** A selection of catalog codes without duplicates. */
  predicate ValidSelection(sel: seq<string>) {
    NoDuplicates(sel) && forall i :: 0 <= i < |sel| ==> sel[i] in CatalogCodes()
  }

  /** Both operations keep the selection a duplicate-free list of catalog codes when the
      toggled code comes from the catalog. */
  lemma {:induction false} SelectionStaysValid(prev: seq<string>, code: string)
    requires ValidSelection(prev) && code in CatalogCodes()
    ensures ValidSelection(ToggledSelection(prev, code))
    ensures ValidSelection(SelectAll(prev))
  {
    var r := ToggledSelection(prev, code);
    forall i | 0 <= i < |r| ensures r[i] in CatalogCodes() {
      assert r[i] in r;
      if r[i] != code {
        var k :| 0 <= k < |prev| && prev[k] == r[i];
      }
    }
    CatalogShape();
  }

  lemma {:induction false} DistinctCard(s: seq<string>)
    requires NoDuplicates(s)
    ensures |set x | x in s| == |s|
  {
    if s != [] {
      var init := s[..|s| - 1];
      assert NoDuplicates(init) by {
        forall i, j | 0 <= i < j < |init| ensures init[i] != init[j] {
          assert init[i] == s[i] && init[j] == s[j];
        }
      }
      DistinctCard(init);
      assert s[|s| - 1] !in init by {
        forall i | 0 <= i < |init| ensures init[i] != s[|s| - 1] {
          assert init[i] == s[i];
        }
      }
      assert s == init + [s[|s| - 1]];
      assert (set x | x in s) == (set x | x in init) + {s[|s| - 1]};
    }
  }

  lemma {:induction false} SubsetCard(a: set<string>, b: set<string>)
    requires a <= b
    ensures |a| <= |b|
    decreases a
  {
    if a != {} {
      var x :| x in a;
      SubsetCard(a - {x}, b - {x});
    }
  }

  /** For a valid selection the length test says "every city is selected": eight distinct
      catalog codes are the whole catalog. */
  lemma {:induction false} FullLengthIsFullCatalog(sel: seq<string>)
    requires ValidSelection(sel)
    ensures |sel| == |CITIES| <==> forall c :: c in CatalogCodes() ==> c in sel
  {
    CatalogShape();
    var mine := set x | x in sel;
    var all := set x | x in CatalogCodes();
    DistinctCard(sel);
    DistinctCard(CatalogCodes());
    assert mine <= all;
    if |sel| == |CITIES| {
      forall c | c in CatalogCodes() ensures c in sel {
        if c !in sel {
          assert mine <= all - {c};
          SubsetCard(mine, all - {c});
        }
      }
    } else if forall c :: c in CatalogCodes() ==> c in sel {
      assert all <= mine;
      SubsetCard(all, mine);
      SubsetCard(mine, all);
    }
  }

  /** Only the length is compared: a stored selection of eight entries that are not the eight
      cities is cleared, not completed. */
  lemma {:induction false} EightOfAnythingClears(sel: seq<string>)
    requires sel == ["SP", "SP", "SP", "SP", "SP", "SP", "SP", "SP"]
    ensures "RIO" !in sel && SelectAll(sel) == []
  {
    CatalogShape();
  }
}
