/** The address picker (project/src/components/Address/AddressSelector.tsx):
    which action each control dispatches, and the guard that keeps the last
    address from being deleted. */
module AddressSelector {
  import opened Types
  import opened AppContext
  import AddressBook
  import ReducerProperties

  /** `handleAddressSelect`; the optional callback runs afterwards. */
  function SelectPressed(a: Address): (act: Action)
    ensures act.SetDeliveryAddress? && act.address == a
  {
    SetDeliveryAddress(a)
  }

  /** Picking one of the user's addresses is a dispatch the reducer's
      invariant allows: it selects exactly that address, changes nothing
      else, and keeps the state well formed. */
  lemma SelectKeepsWf(env: Env, s: AppState, k: int)
    requires Wf(s) && 0 <= k < |AddressesOf(s.auth.user)|
    ensures var a := AddressesOf(s.auth.user)[k];
      ViewGuarded(s, SelectPressed(a)) &&
      Reduce(env, s, SelectPressed(a)) == s.(selectedDeliveryAddress := Some(a)) &&
      Wf(Reduce(env, s, SelectPressed(a)))
  {
    var a := AddressesOf(s.auth.user)[k];
    ReducerProperties.AddressStep(env, s, SelectPressed(a));
    ReducerProperties.ReducePreservesWf(env, s, SelectPressed(a));
  }

  /** "Set Default" is offered only for an address not flagged default. */
  predicate OffersSetDefault(a: Address) {
    !IsTrue(a.isDefault)
  }

  function SetDefaultPressed(a: Address): Action {
    SetDefaultAddress(a.id)
  }

  /** `handleDeleteAddress`: refused while the user has one address or none. */
  function DeletePressed(user: Option<User>, id: string): (actions: seq<Action>)
    ensures |AddressesOf(user)| <= 1 <==> actions == []
    ensures |AddressesOf(user)| > 1 ==> actions == [DeleteAddress(id)]
  {
    if |AddressesOf(user)| <= 1 then [] else [DeleteAddress(id)]
  }

  /** Which form is open: a new address, or the edit of a listed one. */
  datatype Editor = Adding | Editing(original: Address)

  /** The form's `onSave`: a new address is added, an edit updates. */
  function SavePressed(editor: Editor, a: Address): (act: Action)
    ensures editor.Adding? <==> act == AddAddress(a)
    ensures editor.Editing? <==> act == UpdateAddress(a)
  {
    match editor
    case Adding => AddAddress(a)
    case Editing(_) => UpdateAddress(a)
  }

  /** Through this component a signed-in user's address list, with unique
      ids, never goes from non-empty to empty. */
  lemma DeleteNeverEmpties(env: Env, s: AppState, id: string)
    requires s.auth.user.Some?
    requires AddressBook.UniqueIds(AddressesOf(s.auth.user)) && |AddressesOf(s.auth.user)| >= 1
    ensures var r := Run(env, s, DeletePressed(s.auth.user, id));
      r.Some? && |AddressesOf(r.value.auth.user)| >= 1
  {
    var actions := DeletePressed(s.auth.user, id);
    if |AddressesOf(s.auth.user)| > 1 {
      var t := Reduce(env, s, DeleteAddress(id));
      ReducerProperties.AddressStep(env, s, DeleteAddress(id));
      AddressBook.RemoveLeavesOne(AddressesOf(s.auth.user), id);
      assert actions[1..] == [];
      assert Run(env, s, actions) == Run(env, t, []);
    }
  }

  /** Adding an address whose id is new keeps the ids unique. */
  lemma AddKeepsIdsUnique(env: Env, s: AppState, a: Address)
    requires s.auth.user.Some?
    requires AddressBook.UniqueIds(AddressesOf(s.auth.user)) && !AddressBook.HasAddress(AddressesOf(s.auth.user), a.id)
    ensures AddressBook.UniqueIds(AddressesOf(Reduce(env, s, SavePressed(Adding, a)).auth.user))
  {
    ReducerProperties.AddressStep(env, s, AddAddress(a));
    var old_ := AddressesOf(s.auth.user);
    var new_ := AddressesOf(Reduce(env, s, AddAddress(a)).auth.user);
    forall i, j | 0 <= i < j < |new_| ensures new_[i].id != new_[j].id {
      if j == |old_| {
        assert new_[i] == old_[i];
      }
    }
  }

  /** "Set Default" on a listed address of a list with unique ids makes it
      the one and only default. */
  lemma SetDefaultMakesSoleDefault(env: Env, s: AppState, k: int)
    requires s.auth.user.Some?
    requires AddressBook.UniqueIds(AddressesOf(s.auth.user)) && 0 <= k < |AddressesOf(s.auth.user)|
    ensures var a := AddressesOf(s.auth.user)[k];
      var addrs := AddressesOf(Reduce(env, s, SetDefaultPressed(a)).auth.user);
      AddressBook.CountDefaults(addrs) == 1 &&
      forall i :: 0 <= i < |addrs| ==> (IsTrue(addrs[i].isDefault) <==> addrs[i].id == a.id)
  {
    var a := AddressesOf(s.auth.user)[k];
    ReducerProperties.SetDefaultAddressSingle(env, s, a.id);
  }
}
