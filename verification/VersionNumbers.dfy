/** Version numbers: each owner's versions are numbered from the highest one in use. */
module VersionNumbers {
  import opened Text

  datatype Stamp = Stamp(owner: string, number: nat)

  /** The stamps of a table of versions. */
  function StampsOf<V>(vs: seq<V>, stampOf: V -> Stamp): seq<Stamp> {
    if vs == [] then [] else StampsOf(vs[..|vs| - 1], stampOf) + [stampOf(vs[|vs| - 1])]
  }

  /** The version with an id. */
  function Find<V>(vs: seq<V>, id: string, idOf: V -> string): Option<V> {
    if vs == [] then None
    else if idOf(vs[|vs| - 1]) == id then Some(vs[|vs| - 1])
    else Find(vs[..|vs| - 1], id, idOf)
  }

  lemma {:induction false} FindUnique<V>(vs: seq<V>, i: nat, idOf: V -> string)
    requires i < |vs| && forall a, b :: 0 <= a < b < |vs| ==> idOf(vs[a]) != idOf(vs[b])
    ensures Find(vs, idOf(vs[i]), idOf) == Some(vs[i])
  {
    if i < |vs| - 1 { FindUnique(vs[..|vs| - 1], i, idOf); }
  }

  /** The numbers of one owner's versions, in the order of insertion. */
  function Numbers(stamps: seq<Stamp>, owner: string): seq<nat> {
    if stamps == [] then []
    else
      var v := stamps[|stamps| - 1];
      Numbers(stamps[..|stamps| - 1], owner) + if v.owner == owner then [v.number] else []
  }

  /** `COALESCE(MAX(version_number), 0)`. */
  function Latest(stamps: seq<Stamp>, owner: string): nat {
    if stamps == [] then 0
    else
      var v := stamps[|stamps| - 1];
      var before := Latest(stamps[..|stamps| - 1], owner);
      if v.owner == owner && v.number > before then v.number else before
  }

  ghost predicate Consecutive(ns: seq<nat>) { forall k :: 0 <= k < |ns| ==> ns[k] == k + 1 }

  /** Every owner's versions are numbered 1 to n. */
  ghost predicate WellNumbered(stamps: seq<Stamp>) {
    forall owner :: Consecutive(Numbers(stamps, owner))
  }

  lemma {:induction false} LatestIsCount(stamps: seq<Stamp>, owner: string)
    requires Consecutive(Numbers(stamps, owner))
    ensures Latest(stamps, owner) == |Numbers(stamps, owner)|
  {
    if stamps != [] {
      var last := |stamps| - 1;
      var ns := Numbers(stamps[..last], owner);
      forall k | 0 <= k < |ns| ensures ns[k] == k + 1 { assert Numbers(stamps, owner)[k] == ns[k]; }
      LatestIsCount(stamps[..last], owner);
      if stamps[last].owner == owner {
        assert Numbers(stamps, owner)[|ns|] == stamps[last].number;
      }
    }
  }

  lemma {:induction false} NumbersOfNone(stamps: seq<Stamp>, owner: string)
    requires forall i :: 0 <= i < |stamps| ==> stamps[i].owner != owner
    ensures Numbers(stamps, owner) == []
  {
    if stamps != [] { NumbersOfNone(stamps[..|stamps| - 1], owner); }
  }

  /** Numbering one more version from the highest number keeps every owner's numbers 1 to n. */
  lemma {:induction false} NextNumber(stamps: seq<Stamp>, v: Stamp)
    requires WellNumbered(stamps) && v.number == Latest(stamps, v.owner) + 1
    ensures WellNumbered(stamps + [v])
    ensures Numbers(stamps + [v], v.owner) == Numbers(stamps, v.owner) + [v.number]
  {
    assert (stamps + [v])[..|stamps|] == stamps;
    forall owner ensures Consecutive(Numbers(stamps + [v], owner)) {
      assert Consecutive(Numbers(stamps, owner));
      LatestIsCount(stamps, v.owner);
    }
  }

  /** How many versions of a table an owner has. */
  ghost function CountOf<V>(vs: seq<V>, owner: string, stampOf: V -> Stamp): nat {
    |set i | 0 <= i < |vs| && stampOf(vs[i]).owner == owner|
  }

  lemma {:induction false} CountStep<V>(vs: seq<V>, v: V, owner: string, stampOf: V -> Stamp)
    ensures CountOf(vs + [v], owner, stampOf) == CountOf(vs, owner, stampOf) + (if stampOf(v).owner == owner then 1 else 0)
  {
    var before := set i | 0 <= i < |vs| && stampOf(vs[i]).owner == owner;
    var after := set i | 0 <= i < |vs + [v]| && stampOf((vs + [v])[i]).owner == owner;
    assert after == before + if stampOf(v).owner == owner then {|vs|} else {};
  }

  lemma {:induction false} NumbersStep<V>(vs: seq<V>, v: V, owner: string, stampOf: V -> Stamp)
    ensures |Numbers(StampsOf(vs + [v], stampOf), owner)| == |Numbers(StampsOf(vs, stampOf), owner)| + (if stampOf(v).owner == owner then 1 else 0)
  {
    assert (vs + [v])[..|vs|] == vs;
    var stamps := StampsOf(vs, stampOf) + [stampOf(v)];
    assert StampsOf(vs + [v], stampOf) == stamps;
    hide StampsOf;
    assert stamps[..|stamps| - 1] == StampsOf(vs, stampOf);
  }

  lemma {:induction false} NoneCounted<V>(owner: string, stampOf: V -> Stamp)
    ensures CountOf([], owner, stampOf) == 0
  {
  }

  /** As many as there are numbers. */
  lemma {:induction false} CountIsNumbers<V>(vs: seq<V>, owner: string, stampOf: V -> Stamp)
    ensures CountOf(vs, owner, stampOf) == |Numbers(StampsOf(vs, stampOf), owner)|
  {
    if vs == [] {
      NoneCounted(owner, stampOf);
    } else {
      var init, last := vs[..|vs| - 1], vs[|vs| - 1];
      hide CountOf, Numbers, StampsOf;
      assert vs == init + [last];
      CountIsNumbers(init, owner, stampOf);
      CountStep(init, last, owner, stampOf);
      NumbersStep(init, last, owner, stampOf);
    }
  }
}
