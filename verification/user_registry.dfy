/** The UserRegistry contract: one profile per address, written only by that address.
    `updateProfile` is a pure transition from the registry, the sender, the arguments and the
    block timestamp to the new registry and its `ProfileUpdated` event, or a revert. */
module UserRegistry {
  import opened Wrappers

  type Address = string

  /** The `getProfile` record: (exists, profileCid, updatedAt). The first field is named
      `profileExists` here because `exists` is a keyword. */
  datatype Profile = Profile(profileExists: bool, profileCid: string, updatedAt: nat)

  /** What an address that never wrote a profile reads: every field at its zero value. */
  const NoProfile := Profile(false, "", 0)

  type Registry = map<Address, Profile>

  const EmptyRegistry: Registry := map[]

  /** The event of a successful update. */
  datatype ProfileUpdated = ProfileUpdated(user: Address, profileCid: string, timestamp: nat)

  datatype RegistryError = NotProfileOwner

  /** `getProfile(user)`. */
  function GetProfile(reg: Registry, user: Address): (p: Profile)
    ensures user !in reg ==> p == NoProfile
    ensures user in reg ==> p == reg[user]
  {
    if user in reg then reg[user] else NoProfile
  }

  /** `hasProfile(user)`. */
  function HasProfile(reg: Registry, user: Address): bool {
    GetProfile(reg, user).profileExists
  }

  /** `updateProfile(user, cid)` sent by `caller` in a block with timestamp `now`:
      only the user may write their own profile, and a write replaces any earlier one. */
  function UpdateProfile(reg: Registry, caller: Address, user: Address, cid: string, now: nat)
    : (r: Result<(Registry, ProfileUpdated), RegistryError>)
    ensures r.Success? <==> caller == user
    ensures r.Failure? ==> r.error == NotProfileOwner
    ensures r.Success? ==>
      && GetProfile(r.value.0, user) == Profile(true, cid, now)
      && (forall a :: a != user ==> GetProfile(r.value.0, a) == GetProfile(reg, a))
      && r.value.1 == ProfileUpdated(caller, cid, now)
  {
    if caller != user then Failure(NotProfileOwner)
    else Success((reg[user := Profile(true, cid, now)], ProfileUpdated(user, cid, now)))
  }

  /** The registry after a transaction: unchanged when it reverted. */
  function Commit(reg: Registry, r: Result<(Registry, ProfileUpdated), RegistryError>): (next: Registry)
    ensures r.Failure? ==> next == reg
  {
    if r.Success? then r.value.0 else reg
  }

  /** Every stored entry exists and carries a positive timestamp. */
  predicate Invariant(reg: Registry) {
    forall a :: a in reg ==> reg[a].profileExists && reg[a].updatedAt > 0
  }

  /** Blocks have positive timestamps, so updates keep the invariant. */
  lemma UpdatePreservesInvariant(reg: Registry, caller: Address, user: Address, cid: string, now: nat)
    requires Invariant(reg) && now > 0
    ensures Invariant(Commit(reg, UpdateProfile(reg, caller, user, cid, now)))
  {
  }

  /** Under the invariant, `hasProfile` is exactly "the address has an entry". */
  lemma HasProfileIffStored(reg: Registry, a: Address)
    requires Invariant(reg)
    ensures HasProfile(reg, a) <==> a in reg
  {
  }

  /** A self-update at a positive timestamp stores the cid, marks the profile as existing,
      and emits an event naming the sender, the cid and the timestamp. */
  lemma SelfUpdateStoresProfile(reg: Registry, user: Address, cid: string, now: nat)
    requires now > 0
    ensures var r := UpdateProfile(reg, user, user, cid, now);
      && r.Success?
      && HasProfile(r.value.0, user)
      && GetProfile(r.value.0, user).profileCid == cid
      && GetProfile(r.value.0, user).updatedAt > 0
      && r.value.1.user == user && r.value.1.profileCid == cid && r.value.1.timestamp > 0
  {
  }

  /** A second update overwrites the first: the latest cid is returned. */
  lemma SecondUpdateOverwrites(reg: Registry, user: Address, first: string, second: string, t1: nat, t2: nat)
    ensures var r1 := UpdateProfile(reg, user, user, first, t1);
      var r2 := UpdateProfile(r1.value.0, user, user, second, t2);
      r2.Success? && GetProfile(r2.value.0, user) == Profile(true, second, t2)
  {
  }

  /** An update of someone else's profile reverts and leaves every profile as it was. */
  lemma ForeignUpdateReverts(reg: Registry, caller: Address, user: Address, cid: string, now: nat)
    requires caller != user
    ensures UpdateProfile(reg, caller, user, cid, now) == Failure(NotProfileOwner)
    ensures forall a :: GetProfile(Commit(reg, UpdateProfile(reg, caller, user, cid, now)), a) == GetProfile(reg, a)
  {
  }

  // ---------------------------------------------------------------------------
  // Histories of transactions
  // ---------------------------------------------------------------------------

  /** One `updateProfile` transaction as sent. */
  datatype Update = Update(caller: Address, user: Address, cid: string, now: nat)

  /** The registry after a sequence of transactions, reverted ones having no effect. */
  function Replay(reg: Registry, txs: seq<Update>): Registry
    decreases |txs|
  {
    if |txs| == 0 then reg
    else
      var last := txs[|txs| - 1];
      Commit(Replay(reg, txs[..|txs| - 1]), UpdateProfile(Replay(reg, txs[..|txs| - 1]), last.caller, last.user, last.cid, last.now))
  }

  /** A transaction that writes `a`'s profile: sent by `a` for `a`. */
  predicate WritesOwnProfile(tx: Update, a: Address) {
    tx.caller == a && tx.user == a
  }

  /** Starting from an empty registry, an address has a profile exactly when some transaction
      in the history was its own update of its own profile. */
  lemma {:induction false} HasProfileIffSelfUpdated(txs: seq<Update>, a: Address)
    ensures HasProfile(Replay(EmptyRegistry, txs), a) <==> exists i :: 0 <= i < |txs| && WritesOwnProfile(txs[i], a)
    decreases |txs|
  {
    if |txs| > 0 {
      var init := txs[..|txs| - 1];
      HasProfileIffSelfUpdated(init, a);
      if exists i :: 0 <= i < |init| && WritesOwnProfile(init[i], a) {
        var i :| 0 <= i < |init| && WritesOwnProfile(init[i], a);
        assert txs[i] == init[i];
      }
      if exists i :: 0 <= i < |txs| && WritesOwnProfile(txs[i], a) {
        var i :| 0 <= i < |txs| && WritesOwnProfile(txs[i], a);
        if i < |init| {
          assert init[i] == txs[i];
        }
      }
    }
  }

  /** The profile an address reads is the one written by its latest own update. */
  lemma {:induction false} LatestSelfUpdateWins(reg: Registry, txs: seq<Update>, a: Address, k: nat)
    requires k < |txs| && WritesOwnProfile(txs[k], a)
    requires forall j :: k < j < |txs| ==> !WritesOwnProfile(txs[j], a)
    ensures GetProfile(Replay(reg, txs), a) == Profile(true, txs[k].cid, txs[k].now)
    decreases |txs|
  {
    if k < |txs| - 1 {
      var init := txs[..|txs| - 1];
      assert init[k] == txs[k];
      forall j | k < j < |init|
        ensures !WritesOwnProfile(init[j], a)
      {
        assert init[j] == txs[j];
      }
      LatestSelfUpdateWins(reg, init, a, k);
    }
  }
}
