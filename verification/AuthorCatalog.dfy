/**
 * Splitting catalog definitions (packages/guard-generator/src/author-catalog.ts: `fields`, `definitions`).
 */
module AuthorCatalog {
  // A definition too long for one item is split along its structure. Hashes are modelled as given texts of
  // 64 characters.

  import opened Text

  const AUTHOR_TOOL_RESULT_CHARS: nat := 12000
  const COMPACT_ITEM_CHARS: nat := AUTHOR_TOOL_RESULT_CHARS - 2000

  // --- Splitting a value ------------------------------------------------------------------

  datatype Json = Scalar(text: string) | Arr(items: seq<Json>) | Obj(members: seq<Member>)
  datatype Member = Member(key: string, value: Json)

  datatype Place = Index(i: nat) | Name(key: string)
  datatype Child = Child(place: Place, value: Json)
  datatype Item = Item(path: seq<Place>, value: Json)

  function Width(v: Json): nat { match v case Scalar(_) => 0 case Arr(items) => |items| case Obj(members) => |members| }

  function ChildAt(v: Json, i: nat): Child
    requires i < Width(v)
  {
    match v
    case Arr(items) => Child(Index(i), items[i])
    case Obj(members) => Child(Name(members[i].key), members[i].value)
  }

  lemma ChildIsSmaller(v: Json, i: nat)
    requires i < Width(v)
    ensures ChildAt(v, i).value < v
  {
    match v
    case Arr(items) => assert items[i] < v;
    case Obj(members) => assert members[i] < v;
  }

  /** Keys of an object are distinct, at every depth. */
  ghost predicate Proper(v: Json)
    decreases v
  {
    && (v.Obj? ==> forall i, j | 0 <= i < j < |v.members| :: v.members[i].key != v.members[j].key)
    && forall i: nat | i < Width(v) :: ProperChild(v, i)
  }

  ghost predicate ProperChild(v: Json, i: nat)
    requires i < Width(v)
    decreases v, 0
  {
    ChildIsSmaller(v, i);
    Proper(ChildAt(v, i).value)
  }

  /** Ordinary values stay whole; an oversized container is split into its children, a scalar never. */
  function Fields(fits: Item -> bool, v: Json, path: seq<Place>): seq<Item>
    decreases v, 1, 0
  {
    if fits(Item(path, v)) || Width(v) == 0 then [Item(path, v)] else FieldsFrom(fits, v, path, 0)
  }

  function FieldsFrom(fits: Item -> bool, v: Json, path: seq<Place>, i: nat): seq<Item>
    requires i <= Width(v)
    decreases v, 0, Width(v) - i
  {
    if i == Width(v) then []
    else
      ChildIsSmaller(v, i);
      Fields(fits, ChildAt(v, i).value, path + [ChildAt(v, i).place]) + FieldsFrom(fits, v, path, i + 1)
  }

  // --- Putting it together again --------------------------------------------------------------

  /** What of the items' paths lies beyond `depth`. */
  function Beyond(items: seq<Item>, depth: nat): nat {
    if items == [] then 0
    else (if |items[0].path| > depth then |items[0].path| - depth else 0) + Beyond(items[1..], depth)
  }

  /** How many items, from the first, lie under one place. */
  function Together(items: seq<Item>, depth: nat, place: Place): (n: nat)
    ensures n <= |items|
  {
    if items != [] && |items[0].path| > depth && items[0].path[depth] == place
    then 1 + Together(items[1..], depth, place)
    else 0
  }

  lemma {:induction false} BeyondSplits(items: seq<Item>, k: nat, depth: nat)
    requires k <= |items|
    ensures Beyond(items, depth) == Beyond(items[..k], depth) + Beyond(items[k..], depth)
  {
    if k > 0 {
      BeyondSplits(items[1..], k - 1, depth);
      assert items[..k][1..] == items[1..][..k - 1];
      assert items[k..] == items[1..][k - 1..];
    } else { assert items[k..] == items; }
  }

  lemma {:induction false} DeeperIsLess(items: seq<Item>, depth: nat, place: Place)
    requires items != [] && Together(items, depth, place) == |items|
    ensures Beyond(items, depth + 1) < Beyond(items, depth)
  {
    if |items| > 1 { DeeperIsLess(items[1..], depth, place); }
  }

  lemma {:induction false} TogetherFront(items: seq<Item>, depth: nat, place: Place, k: nat)
    requires k == Together(items, depth, place)
    ensures Together(items[..k], depth, place) == k
  {
    if k > 0 {
      TogetherFront(items[1..], depth, place, k - 1);
      assert items[..k][1..] == items[1..][..k - 1];
    }
  }

  /** One item at this depth is the value; several are its children, in order. */
  function Rebuild(items: seq<Item>, depth: nat): Json
    decreases Beyond(items, depth), |items|, 1
  {
    if |items| == 1 && |items[0].path| <= depth then items[0].value
    else FromChildren(RebuildChildren(items, depth))
  }

  function RebuildChildren(items: seq<Item>, depth: nat): seq<Child>
    decreases Beyond(items, depth), |items|, 0
  {
    if items == [] || |items[0].path| <= depth then []
    else
      var place := items[0].path[depth];
      var k := Together(items, depth, place);
      BeyondSplits(items, k, depth);
      TogetherFront(items, depth, place, k);
      DeeperIsLess(items[..k], depth, place);
      [Child(place, Rebuild(items[..k], depth + 1))] + RebuildChildren(items[k..], depth)
  }

  function FromChildren(children: seq<Child>): Json {
    if children != [] && children[0].place.Index?
    then Arr(seq(|children|, i requires 0 <= i < |children| => children[i].value))
    else Obj(seq(|children|, i requires 0 <= i < |children| =>
      Member(if children[i].place.Name? then children[i].place.key else "", children[i].value)))
  }

  function ChildrenFrom(v: Json, i: nat): seq<Child>
    requires i <= Width(v)
  {
    seq(Width(v) - i, k requires 0 <= k < Width(v) - i => ChildAt(v, i + k))
  }

  lemma ChildrenBack(v: Json)
    requires Width(v) > 0
    ensures FromChildren(ChildrenFrom(v, 0)) == v
  {
    var children := ChildrenFrom(v, 0);
    match v
    case Arr(items) => assert FromChildren(children).items == items;
    case Obj(members) => assert FromChildren(children).members == members;
  }

  /** Every item of a value lies under the value's own path. */
  ghost predicate Under(items: seq<Item>, path: seq<Place>) { forall k | 0 <= k < |items| :: path <= items[k].path }

  lemma {:induction false} FieldsLieUnder(fits: Item -> bool, v: Json, path: seq<Place>)
    ensures Fields(fits, v, path) != [] && Under(Fields(fits, v, path), path)
    decreases v, 1, 0
  {
    if !(fits(Item(path, v)) || Width(v) == 0) { FieldsFromLieUnder(fits, v, path, 0); }
  }

  lemma {:induction false} FieldsFromLieUnder(fits: Item -> bool, v: Json, path: seq<Place>, i: nat)
    requires i <= Width(v)
    ensures Under(FieldsFrom(fits, v, path, i), path)
    ensures i < Width(v) ==>
              FieldsFrom(fits, v, path, i) != [] && path + [ChildAt(v, i).place] <= FieldsFrom(fits, v, path, i)[0].path
    decreases v, 0, Width(v) - i
  {
    if i < Width(v) {
      ChildIsSmaller(v, i);
      var below := path + [ChildAt(v, i).place];
      FieldsLieUnder(fits, ChildAt(v, i).value, below);
      FieldsFromLieUnder(fits, v, path, i + 1);
      var first: seq<Item>, rest: seq<Item> := Fields(fits, ChildAt(v, i).value, below),
          FieldsFrom(fits, v, path, i + 1);
      forall k | 0 <= k < |first + rest|
        ensures path <= (first + rest)[k].path
      {
        if k < |first| { assert below <= first[k].path; } else { assert path <= rest[k - |first|].path; }
      }
    }
  }

  lemma {:induction false} TogetherUnder(first: seq<Item>, rest: seq<Item>, path: seq<Place>, place: Place)
    requires Under(first, path + [place])
    requires rest == [] || (|rest[0].path| > |path| && rest[0].path[|path|] != place)
    ensures Together(first + rest, |path|, place) == |first|
  {
    if first != [] {
      assert (first + rest)[0] == first[0] && path + [place] <= first[0].path;
      assert (path + [place])[|path|] == place;
      assert (first + rest)[1..] == first[1..] + rest;
      TogetherUnder(first[1..], rest, path, place);
    } else { assert first + rest == rest; }
  }

  lemma PlacesDiffer(v: Json, i: nat)
    requires Proper(v) && i + 1 < Width(v)
    ensures ChildAt(v, i).place != ChildAt(v, i + 1).place
  {
  }

  /** Splitting loses nothing: putting the items together along their paths gives the value back. */
  lemma {:induction false} FieldsRebuild(fits: Item -> bool, v: Json, path: seq<Place>)
    requires Proper(v)
    ensures Rebuild(Fields(fits, v, path), |path|) == v
    decreases v, 1, 0
  {
    if !(fits(Item(path, v)) || Width(v) == 0) {
      FieldsFromRebuild(fits, v, path, 0);
      ChildrenBack(v);
      FieldsFromLieUnder(fits, v, path, 0);
    }
  }

  lemma {:induction false} FieldsFromRebuild(fits: Item -> bool, v: Json, path: seq<Place>, i: nat)
    requires Proper(v) && i <= Width(v)
    ensures RebuildChildren(FieldsFrom(fits, v, path, i), |path|) == ChildrenFrom(v, i)
    decreases v, 0, Width(v) - i
  {
    hide Rebuild, RebuildChildren, Together, Fields, ChildAt, Under;
    if i == Width(v) { NothingRebuilt(|path|); }
    else {
      ChildIsSmaller(v, i);
      var place := ChildAt(v, i).place;
      var first, rest := Fields(fits, ChildAt(v, i).value, path + [place]), FieldsFrom(fits, v, path, i + 1);
      ProperBelow(v, i);
      FieldsRebuild(fits, ChildAt(v, i).value, path + [place]);
      FieldsFromRebuild(fits, v, path, i + 1);
      FieldsLieUnder(fits, ChildAt(v, i).value, path + [place]);
      RestElsewhere(fits, v, path, i);
      TogetherUnder(first, rest, path, place);
      ChildThenRest(first, rest, path, place);
      ChildrenStep(v, i);
    }
  }

  lemma NothingRebuilt(depth: nat)
    ensures RebuildChildren([], depth) == []
  {
  }

  lemma ProperBelow(v: Json, i: nat)
    requires Proper(v) && i < Width(v)
    ensures Proper(ChildAt(v, i).value)
  {
    assert ProperChild(v, i);
  }

  lemma ChildrenStep(v: Json, i: nat)
    requires i < Width(v)
    ensures ChildrenFrom(v, i) == [ChildAt(v, i)] + ChildrenFrom(v, i + 1)
  {
  }

  /** The next child's items do not lie under this child's place. */
  lemma RestElsewhere(fits: Item -> bool, v: Json, path: seq<Place>, i: nat)
    requires Proper(v) && i < Width(v)
    ensures var rest := FieldsFrom(fits, v, path, i + 1);
            rest == [] || (|rest[0].path| > |path| && rest[0].path[|path|] != ChildAt(v, i).place)
  {
    if i + 1 < Width(v) {
      hide Fields, FieldsFrom, Proper;
      FieldsFromLieUnder(fits, v, path, i + 1);
      PlacesDiffer(v, i);
      assert (path + [ChildAt(v, i + 1).place])[|path|] == ChildAt(v, i + 1).place;
    }
  }

  lemma ChildThenRest(first: seq<Item>, rest: seq<Item>, path: seq<Place>, place: Place)
    requires first != [] && Under(first, path + [place]) && Together(first + rest, |path|, place) == |first|
    ensures RebuildChildren(first + rest, |path|) ==
              [Child(place, Rebuild(first, |path| + 1))] + RebuildChildren(rest, |path|)
  {
    var items := first + rest;
    assert items[0] == first[0] && path + [place] <= first[0].path;
    assert (path + [place])[|path|] == place;
    assert items[..|first|] == first && items[|first|..] == rest;
  }

  /** Every item fits, or cannot be divided further. */
  lemma {:induction false} FieldsFit(fits: Item -> bool, v: Json, path: seq<Place>)
    ensures forall item | item in Fields(fits, v, path) :: fits(item) || Width(item.value) == 0
    decreases v, 1, 0
  {
    if !(fits(Item(path, v)) || Width(v) == 0) { FieldsFromFit(fits, v, path, 0); }
  }

  lemma {:induction false} FieldsFromFit(fits: Item -> bool, v: Json, path: seq<Place>, i: nat)
    requires i <= Width(v)
    ensures forall item | item in FieldsFrom(fits, v, path, i) :: fits(item) || Width(item.value) == 0
    decreases v, 0, Width(v) - i
  {
    if i < Width(v) {
      ChildIsSmaller(v, i);
      FieldsFit(fits, ChildAt(v, i).value, path + [ChildAt(v, i).place]);
      FieldsFromFit(fits, v, path, i + 1);
    }
  }
}
