/** `seedOwner`, run at every start: an upsert that makes sure the owner
    account exists and is an approved administrator with a known password. */
module Seed {
  import opened Base
  import opened UserModel
  import opened Queries

  const OwnerName := "shubham"
  const OwnerPassword := "123"
  const OwnerFullName := "Owner Shubham"

  /** The update part of the upsert. It sets only these fields, so an
      existing owner keeps its `collegeId` and `mobile`. */
  function Promote(a: Account): (r: Account)
    ensures IsOwnerRecord(r)
    ensures r.collegeId == a.collegeId && r.mobile == a.mobile
    ensures IsOwnerRecord(a) ==> r == a
  {
    a.(username := OwnerName, password := OwnerPassword, fullName := Some(OwnerFullName),
       isAdmin := true, isApproved := true)
  }

  /** The document the upsert inserts when no owner exists. */
  const Owner := Account(OwnerName, OwnerPassword, Some(OwnerFullName), None, None, true, true)

  predicate IsOwnerRecord(a: Account) {
    a.username == OwnerName && a.password == OwnerPassword && a.fullName == Some(OwnerFullName)
    && a.isAdmin && a.isApproved
  }

  /** `User.findOneAndUpdate({ username: "shubham" }, …, { upsert: true })`
      on the accounts with ids below `bound`; gives the new accounts and the
      new bound. */
  function SeedOwner(accounts: map<Id, Account>, bound: nat): (r: (map<Id, Account>, nat))
    requires forall k :: k in accounts ==> k < bound
    ensures forall k :: k in r.0 ==> k < r.1
    ensures accounts.Keys <= r.0.Keys
  {
    match FindOne(accounts, ByUsername(OwnerName), bound)
    case Some(k) => (accounts[k := Promote(accounts[k])], bound)
    case None => (accounts[bound := Owner], bound + 1)
  }

  /** After the seed exactly one account is named "shubham" and it is the
      owner record; every other account is as it was, nothing is removed,
      and at most the one new id is added. */
  lemma SeedOwnerReady(accounts: map<Id, Account>, bound: nat)
    requires forall k :: k in accounts ==> k < bound
    requires UniqueUsernames(accounts)
    ensures var (m, b) := SeedOwner(accounts, bound);
      && UniqueUsernames(m)
      && (exists k :: k in m && m[k].username == OwnerName)
      && (forall k :: k in m && m[k].username == OwnerName ==> IsOwnerRecord(m[k]))
      && (forall k :: k in accounts && accounts[k].username != OwnerName ==> k in m && m[k] == accounts[k])
      && (forall k :: k in accounts && accounts[k].username == OwnerName ==>
            m[k].collegeId == accounts[k].collegeId && m[k].mobile == accounts[k].mobile)
      && m.Keys <= accounts.Keys + {bound}
      && ((forall k :: k in accounts ==> HasRequired(accounts[k])) ==> forall k :: k in m ==> HasRequired(m[k]))
  {
    var (m, b) := SeedOwner(accounts, bound);
    match FindOne(accounts, ByUsername(OwnerName), bound)
    case Some(k) =>
      assert m == accounts[k := Promote(accounts[k])];
      assert k in m && m[k].username == OwnerName;
    case None =>
      assert m == accounts[bound := Owner];
      assert bound in m && m[bound].username == OwnerName;
  }

  /** Running the seed a second time changes nothing. */
  lemma SeedOwnerIdempotent(accounts: map<Id, Account>, bound: nat)
    requires forall k :: k in accounts ==> k < bound
    ensures var (m, b) := SeedOwner(accounts, bound); SeedOwner(m, b) == (m, b)
  {
    var (m, b) := SeedOwner(accounts, bound);
    match FindOne(accounts, ByUsername(OwnerName), bound)
    case Some(k) =>
      assert m == accounts[k := Promote(accounts[k])];
      var again := FindOne(m, ByUsername(OwnerName), b);
      assert again == Some(k) by {
        assert Matches(m[k], ByUsername(OwnerName));
        assert again.Some?;
        assert again.value <= k;
      }
      assert m[k := Promote(m[k])] == m;
    case None =>
      assert m == accounts[bound := Owner];
      var again := FindOne(m, ByUsername(OwnerName), b);
      assert again == Some(bound) by {
        assert Matches(m[bound], ByUsername(OwnerName));
        assert again.Some?;
      }
      assert m[bound := Promote(m[bound])] == m;
  }
}
