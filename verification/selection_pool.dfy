/** The web front end's pool of selected scans: at most as many selections
    as there are palette colours, each with a colour taken from the free
    list and given back on removal.  Two modules of the front end hold this
    logic with different palettes (`scan-selections.ts` and
    `scan-selection.ts`); the palette is a parameter here and the two
    constants are below.  A colour read past the end of the free list is
    JavaScript's `undefined`, so colours are `Option<string>`. */
module SelectionPool {
  import opened Wrappers
  import SelectStates

  /** The palette of `scan-selections.ts`. */
  const SelectColors: seq<string> := ["#E69F00", "#93CEF1"]

  /** The palette of `scan-selection.ts` (the first name has a trailing
      space in the source). */
  const SelectedScanColors: seq<string> := ["Aqua ", "Aquamarine"]

  datatype Selection = Selection(id: string, color: Option<string>)

  datatype Pool = Pool(selections: seq<Selection>, freeColors: seq<Option<string>>)

  function Somes(palette: seq<string>): (r: seq<Option<string>>)
    ensures |r| == |palette| && forall k | 0 <= k < |palette| :: r[k] == Some(palette[k])
  {
    seq(|palette|, k requires 0 <= k < |palette| => Some(palette[k]))
  }

  /** `createSelectionPool`: nothing selected, every colour free. */
  function NewPool(palette: seq<string>): (p: Pool)
    ensures p.selections == [] && p.freeColors == Somes(palette)
  {
    Pool([], Somes(palette))
  }

  /** `findIndex`: the first selection with this id. */
  function FindIndex(id: string, selections: seq<Selection>): (r: Option<nat>)
    ensures r.Some? ==>
      && r.value < |selections| && selections[r.value].id == id
      && forall k | 0 <= k < r.value :: selections[k].id != id
    ensures r.None? <==> forall k | 0 <= k < |selections| :: selections[k].id != id
  {
    if selections == [] then None
    else if selections[0].id == id then Some(0)
    else
      match FindIndex(id, selections[1..])
      case None => None
      case Some(k) => Some(k + 1)
  }

  /** `has`. */
  predicate Has(id: string, selections: seq<Selection>)
  {
    FindIndex(id, selections).Some?
  }

  /** `get`: the first selection with this id, if any. */
  function Get(id: string, selections: seq<Selection>): (r: Option<Selection>)
    ensures r.Some? <==> Has(id, selections)
    ensures r.Some? ==> r.value.id == id && r.value in selections
  {
    match FindIndex(id, selections)
    case None => None
    case Some(k) => Some(selections[k])
  }

  /** `remove`: an absent id leaves the pool as it is; otherwise its
      selection goes (the others keep their order) and its colour goes to
      the front of the free list. */
  function Remove(id: string, pool: Pool): (r: Pool)
    ensures !Has(id, pool.selections) ==> r == pool
    ensures Has(id, pool.selections) ==>
      var k := FindIndex(id, pool.selections).value;
      && r.selections == pool.selections[..k] + pool.selections[k + 1..]
      && r.freeColors == [pool.selections[k].color] + pool.freeColors
  {
    match FindIndex(id, pool.selections)
    case None => pool
    case Some(k) =>
      Pool(pool.selections[..k] + pool.selections[k + 1..], [pool.selections[k].color] + pool.freeColors)
  }

  /** `freeColors[freeColors.length - 1]`: `undefined` on an empty list. */
  function LastColor(free: seq<Option<string>>): Option<string>
  {
    if free == [] then None else free[|free| - 1]
  }

  /** `freeColors.slice(0, freeColors.length - 1)`. */
  function DropLast(free: seq<Option<string>>): seq<Option<string>>
  {
    if free == [] then [] else free[..|free| - 1]
  }

  /** `add`: a full pool first gives up its last selection; the new id then
      goes first, with the last free colour, which leaves the free list. */
  function Add(id: string, pool: Pool, palette: seq<string>): (r: Pool)
    requires |palette| >= 1
    ensures var base := if |pool.selections| >= |palette| then Remove(pool.selections[|pool.selections| - 1].id, pool) else pool;
      && r.selections == [Selection(id, LastColor(base.freeColors))] + base.selections
      && r.freeColors == DropLast(base.freeColors)
  {
    var base := if |pool.selections| >= |palette| then Remove(pool.selections[|pool.selections| - 1].id, pool) else pool;
    Pool([Selection(id, LastColor(base.freeColors))] + base.selections, DropLast(base.freeColors))
  }

  /** `toggle`. */
  function Toggle(id: string, pool: Pool, palette: seq<string>): Pool
    requires |palette| >= 1
  {
    if Has(id, pool.selections) then Remove(id, pool) else Add(id, pool, palette)
  }

  /** `compare`: equal lengths, and every id of `a` is found in `b`. */
  predicate Compare(a: seq<Selection>, b: seq<Selection>)
  {
    |a| == |b| && forall k | 0 <= k < |a| :: Has(a[k].id, b)
  }

  // --------------------------------------------------------- invariant

  function Colors(selections: seq<Selection>): (r: seq<Option<string>>)
    ensures |r| == |selections| && forall k | 0 <= k < |r| :: r[k] == selections[k].color
  {
    seq(|selections|, k requires 0 <= k < |selections| => selections[k].color)
  }

  /** The pool's colour accounting: the selections' colours and the free
      colours together are the palette, so there are never more selections
      than colours. */
  predicate Valid(pool: Pool, palette: seq<string>)
  {
    multiset(Colors(pool.selections)) + multiset(pool.freeColors) == multiset(Somes(palette))
  }

  predicate DistinctIds(selections: seq<Selection>)
  {
    forall k, m | 0 <= k < m < |selections| :: selections[k].id != selections[m].id
  }

  lemma NewPoolValid(palette: seq<string>)
    ensures Valid(NewPool(palette), palette)
  {
    assert Colors([]) == [];
  }

  lemma ValidSizes(pool: Pool, palette: seq<string>)
    requires Valid(pool, palette)
    ensures |pool.selections| + |pool.freeColors| == |palette|
  {
    assert |multiset(Colors(pool.selections))| == |Colors(pool.selections)| == |pool.selections|;
    assert |multiset(pool.freeColors)| == |pool.freeColors|;
    assert |multiset(Somes(palette))| == |Somes(palette)| == |palette|;
  }

  lemma ColorsAppend(a: seq<Selection>, b: seq<Selection>)
    ensures Colors(a + b) == Colors(a) + Colors(b)
  {
    assert forall k | 0 <= k < |a + b| :: Colors(a + b)[k] == (Colors(a) + Colors(b))[k];
  }

  lemma ColorsSplice(s: seq<Selection>, k: nat)
    requires k < |s|
    ensures multiset(Colors(s)) == multiset(Colors(s[..k] + s[k + 1..])) + multiset{s[k].color}
  {
    assert s == s[..k] + [s[k]] + s[k + 1..];
    ColorsAppend(s[..k] + [s[k]], s[k + 1..]);
    ColorsAppend(s[..k], [s[k]]);
    ColorsAppend(s[..k], s[k + 1..]);
    assert Colors([s[k]]) == [s[k].color];
  }

  /** Removing keeps the colour accounting, keeps the ids pairwise
      distinct, and shortens by one exactly when the id was present. */
  lemma RemoveKeepsValid(id: string, pool: Pool, palette: seq<string>)
    requires Valid(pool, palette)
    ensures Valid(Remove(id, pool), palette)
    ensures DistinctIds(pool.selections) ==> DistinctIds(Remove(id, pool).selections)
    ensures |Remove(id, pool).selections| == if Has(id, pool.selections) then |pool.selections| - 1 else |pool.selections|
  {
    if Has(id, pool.selections) {
      var k := FindIndex(id, pool.selections).value;
      ColorsSplice(pool.selections, k);
      assert multiset([pool.selections[k].color] + pool.freeColors)
          == multiset{pool.selections[k].color} + multiset(pool.freeColors);
    }
  }

  /** Putting a new selection with the last free colour in front of a
      valid pool that has a free colour keeps the accounting. */
  lemma AddOnto(id: string, base: Pool, palette: seq<string>)
    requires Valid(base, palette) && base.freeColors != []
    ensures Valid(Pool([Selection(id, LastColor(base.freeColors))] + base.selections, DropLast(base.freeColors)), palette)
    ensures LastColor(base.freeColors).Some? && LastColor(base.freeColors).value in palette
  {
    var c := base.freeColors[|base.freeColors| - 1];
    assert base.freeColors == DropLast(base.freeColors) + [c];
    assert multiset(base.freeColors) == multiset(DropLast(base.freeColors)) + multiset{c};
    ColorsAppend([Selection(id, c)], base.selections);
    assert Colors([Selection(id, c)]) == [c];
    assert c in multiset(Somes(palette));
    var j :| 0 <= j < |palette| && Somes(palette)[j] == c;
  }

  /** Adding keeps the colour accounting and the bound on the number of
      selections, and the new selection gets a real palette colour. */
  lemma AddKeepsValid(id: string, pool: Pool, palette: seq<string>)
    requires |palette| >= 1 && Valid(pool, palette)
    ensures Valid(Add(id, pool, palette), palette)
    ensures |Add(id, pool, palette).selections| <= |palette|
    ensures Add(id, pool, palette).selections[0].color.Some?
    ensures Add(id, pool, palette).selections[0].color.value in palette
  {
    ValidSizes(pool, palette);
    var s := pool.selections;
    var base := if |s| >= |palette| then Remove(s[|s| - 1].id, pool) else pool;
    if |s| >= |palette| {
      RemoveKeepsValid(s[|s| - 1].id, pool, palette);
      assert FindIndex(s[|s| - 1].id, s).Some?;
    }
    ValidSizes(base, palette);
    AddOnto(id, base, palette);
  }

  lemma ToggleKeepsValid(id: string, pool: Pool, palette: seq<string>)
    requires |palette| >= 1 && Valid(pool, palette)
    ensures Valid(Toggle(id, pool, palette), palette)
  {
    if Has(id, pool.selections) {
      RemoveKeepsValid(id, pool, palette);
    } else {
      AddKeepsValid(id, pool, palette);
    }
  }

  /** On a full pool with distinct ids, adding evicts the oldest (last)
      selection and keeps the others in order behind the new one. */
  lemma AddEvictsOldest(id: string, pool: Pool, palette: seq<string>)
    requires |palette| >= 1 && |pool.selections| >= |palette| && DistinctIds(pool.selections)
    ensures var n := |pool.selections|;
      Add(id, pool, palette).selections[1..] == pool.selections[..n - 1]
  {
    var n := |pool.selections|;
    var k := FindIndex(pool.selections[n - 1].id, pool.selections).value;
    assert k == n - 1;
  }

  /** With distinct ids, `toggle` flips whether the id is selected and the
      ids stay distinct. */
  lemma ToggleFlips(id: string, pool: Pool, palette: seq<string>)
    requires |palette| >= 1 && DistinctIds(pool.selections)
    ensures Has(id, Toggle(id, pool, palette).selections) <==> !Has(id, pool.selections)
    ensures DistinctIds(Toggle(id, pool, palette).selections)
  {
    var s := pool.selections;
    if Has(id, s) {
      var k := FindIndex(id, s).value;
      var rest := s[..k] + s[k + 1..];
      forall m | 0 <= m < |rest|
        ensures rest[m].id != id
      {
        if m < k {
          assert rest[m] == s[m];
        } else {
          assert rest[m] == s[m + 1];
        }
      }
    } else {
      var base := if |s| >= |palette| then Remove(s[|s| - 1].id, pool) else pool;
      assert base.selections == s[..|base.selections|] by {
        if |s| >= |palette| {
          var k := FindIndex(s[|s| - 1].id, s).value;
          assert k == |s| - 1;
        }
      }
      var r := Add(id, pool, palette).selections;
      assert r[0].id == id;
      forall a, b | 0 <= a < b < |r|
        ensures r[a].id != r[b].id
      {
        assert r[b] == s[b - 1];
        if a > 0 {
          assert r[a] == s[a - 1];
        }
      }
    }
  }

  /** The ids of a list of selections. */
  function Ids(s: seq<Selection>): set<string>
  {
    if s == [] then {} else {s[0].id} + Ids(s[1..])
  }

  lemma {:induction false} IdsHas(x: string, s: seq<Selection>)
    ensures x in Ids(s) <==> Has(x, s)
  {
    if s != [] {
      IdsHas(x, s[1..]);
    }
  }

  lemma {:induction false} IdsCount(s: seq<Selection>)
    requires DistinctIds(s)
    ensures |Ids(s)| == |s|
  {
    if s != [] {
      IdsCount(s[1..]);
      IdsHas(s[0].id, s[1..]);
      assert forall k | 0 <= k < |s[1..]| :: s[1..][k].id == s[k + 1].id != s[0].id;
    }
  }

  /** `compare` holds exactly when the lengths agree and every id of `a`
      is among the ids of `b`; on duplicate-free lists that means the same
      ids, so it is symmetric there. */
  lemma CompareMeaning(a: seq<Selection>, b: seq<Selection>)
    ensures Compare(a, b) <==> |a| == |b| && Ids(a) <= Ids(b)
    ensures DistinctIds(a) && DistinctIds(b) ==> (Compare(a, b) <==> |a| == |b| && Ids(a) == Ids(b))
  {
    forall x
      ensures x in Ids(a) <==> Has(x, a)
      ensures x in Ids(b) <==> Has(x, b)
    {
      IdsHas(x, a);
      IdsHas(x, b);
    }
    if Compare(a, b) {
      forall x | x in Ids(a)
        ensures x in Ids(b)
      {
        var k := FindIndex(x, a).value;
        assert Has(a[k].id, b);
      }
    }
    if |a| == |b| && Ids(a) <= Ids(b) {
      forall k | 0 <= k < |a|
        ensures Has(a[k].id, b)
      {
        assert FindIndex(a[k].id, a).Some?;
      }
    }
    if DistinctIds(a) && DistinctIds(b) && |a| == |b| && Ids(a) <= Ids(b) {
      IdsCount(a);
      IdsCount(b);
      SelectStates.SubsetOfSameSize(Ids(a), Ids(b));
    }
  }

  /** On duplicate-free lists `compare` is symmetric. */
  lemma CompareSymmetric(a: seq<Selection>, b: seq<Selection>)
    requires DistinctIds(a) && DistinctIds(b) && Compare(a, b)
    ensures Compare(b, a)
  {
    CompareMeaning(a, b);
    CompareMeaning(b, a);
  }
}
