/** The logged-in user's address list as the reducer rewrites it
    (project/src/context/AppContext.tsx:193-256). Each operation turns a
    missing list into an empty one, as `addresses?.… || []` does. */
module AddressBook {
  import opened Types
  import opened Seqs

  predicate HasAddress(addrs: seq<Address>, id: string) {
    exists i | 0 <= i < |addrs| :: addrs[i].id == id
  }

  predicate UniqueIds(addrs: seq<Address>) {
    forall i, j :: 0 <= i < j < |addrs| ==> addrs[i].id != addrs[j].id
  }

  /** Equal in every field but the `isDefault` flag. */
  predicate SameExceptDefault(a: Address, b: Address) {
    a.(isDefault := None) == b.(isDefault := None)
  }

  /** Some entry of the list is the address, up to its default flag. */
  predicate Lists(addrs: seq<Address>, a: Address) {
    exists i | 0 <= i < |addrs| :: SameExceptDefault(addrs[i], a)
  }

  /** How many entries carry a truthy `isDefault`. */
  function CountDefaults(addrs: seq<Address>): nat {
    if |addrs| == 0 then 0
    else (if IsTrue(addrs[0].isDefault) then 1 else 0) + CountDefaults(addrs[1..])
  }

  /** ADD_ADDRESS: append. */
  function Append(addrs: seq<Address>, a: Address): (r: seq<Address>)
    ensures |r| == |addrs| + 1 && r[|addrs|] == a
    ensures forall i :: 0 <= i < |addrs| ==> r[i] == addrs[i]
  {
    addrs + [a]
  }

  /** UPDATE_ADDRESS: every entry with the payload's id becomes the payload. */
  function Replace(addrs: seq<Address>, a: Address): (r: seq<Address>)
    ensures |r| == |addrs|
    ensures forall i :: 0 <= i < |addrs| && addrs[i].id != a.id ==> r[i] == addrs[i]
    ensures forall i :: 0 <= i < |addrs| && addrs[i].id == a.id ==> r[i] == a
    ensures HasAddress(addrs, a.id) ==> a in r
  {
    MapSeq(addrs, (x: Address) => if x.id == a.id then a else x)
  }

  /** DELETE_ADDRESS: drop every entry with the id. */
  function Remove(addrs: seq<Address>, id: string): (r: seq<Address>)
    ensures !HasAddress(r, id)
    ensures IsSubseq(r, addrs)
    ensures forall i :: 0 <= i < |addrs| && addrs[i].id != id ==> addrs[i] in r
    ensures forall x :: multiset(r)[x] == if x.id != id then multiset(addrs)[x] else 0
  {
    var other := (x: Address) => x.id != id;
    FilterCounts(addrs, other);
    Filter(addrs, other)
  }

  /** SET_DEFAULT_ADDRESS: rewrite every flag, true exactly for the id. */
  function MarkDefault(addrs: seq<Address>, id: string): (r: seq<Address>)
    ensures |r| == |addrs|
    ensures forall i :: 0 <= i < |addrs| ==> SameExceptDefault(r[i], addrs[i])
    ensures forall i :: 0 <= i < |addrs| ==> (IsTrue(r[i].isDefault) <==> r[i].id == id)
  {
    MapSeq(addrs, (x: Address) => x.(isDefault := Some(x.id == id)))
  }

  /** A list whose default flags mark exactly the entries with one id, among
      unique ids, has one default entry when the id is present and none
      otherwise. */
  lemma {:induction false} CountDefaultsExact(addrs: seq<Address>, id: string)
    requires UniqueIds(addrs)
    requires forall i :: 0 <= i < |addrs| ==> (IsTrue(addrs[i].isDefault) <==> addrs[i].id == id)
    ensures CountDefaults(addrs) == (if HasAddress(addrs, id) then 1 else 0)
  {
    if |addrs| > 0 {
      var tail := addrs[1..];
      assert forall i :: 0 <= i < |tail| ==> tail[i] == addrs[i + 1];
      CountDefaultsExact(tail, id);
      if addrs[0].id == id {
        assert !HasAddress(tail, id);
      } else {
        assert HasAddress(addrs, id) ==> HasAddress(tail, id);
      }
    }
  }

  /** After SET_DEFAULT_ADDRESS over unique ids, exactly one entry is the
      default when the id is listed, and that entry has the id. */
  lemma MarkDefaultSingle(addrs: seq<Address>, id: string)
    requires UniqueIds(addrs)
    ensures CountDefaults(MarkDefault(addrs, id)) == (if HasAddress(addrs, id) then 1 else 0)
    ensures UniqueIds(MarkDefault(addrs, id))
  {
    var r := MarkDefault(addrs, id);
    assert forall i :: 0 <= i < |addrs| ==> r[i].id == addrs[i].id;
    assert HasAddress(r, id) == HasAddress(addrs, id);
    CountDefaultsExact(r, id);
  }

  /** Deleting one id from a list of unique ids that has at least two
      entries leaves at least one. */
  lemma RemoveLeavesOne(addrs: seq<Address>, id: string)
    requires UniqueIds(addrs) && |addrs| >= 2
    ensures |Remove(addrs, id)| >= 1
  {
    var p := (x: Address) => x.id == id;
    var q := (x: Address) => x.id != id;
    FilterRemovesAtMostOne(addrs, p, q);
    assert Remove(addrs, id) == Filter(addrs, q);
  }
}
