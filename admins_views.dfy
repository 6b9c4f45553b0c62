/** app/admins/views.py: the admin listing ordered by name, and the two
    toggles a staff member applies to another admin. */
module AdminsViews {
  import opened Common
  import opened Table
  import opened CoreModels
  import opened AdminsSerializers

  // ---------------------------------------------------------------------------
  // ListUsersView: order_by('name')
  // ---------------------------------------------------------------------------

  /** Lexicographic order on strings, character by character. */
  predicate StrLe(a: string, b: string) {
    if a == [] then true
    else if b == [] then false
    else if a[0] != b[0] then a[0] < b[0]
    else StrLe(a[1..], b[1..])
  }

  lemma {:induction false} StrLeTotal(a: string, b: string)
    ensures StrLe(a, b) || StrLe(b, a)
  {
    if a != [] && b != [] && a[0] == b[0] {
      StrLeTotal(a[1..], b[1..]);
    }
  }

  lemma {:induction false} StrLeTrans(a: string, b: string, c: string)
    requires StrLe(a, b) && StrLe(b, c)
    ensures StrLe(a, c)
  {
    if a != [] && b != [] && c != [] && a[0] == b[0] && b[0] == c[0] {
      StrLeTrans(a[1..], b[1..], c[1..]);
    }
  }

  lemma {:induction false} StrLeAntisymmetric(a: string, b: string)
    requires StrLe(a, b) && StrLe(b, a)
    ensures a == b
  {
    if a != [] && b != [] {
      StrLeAntisymmetric(a[1..], b[1..]);
      assert a == [a[0]] + a[1..] && b == [b[0]] + b[1..];
    }
  }

  /** The order of the nullable name column, NULL first. */
  predicate NameLe(a: Option<string>, b: Option<string>) {
    a.None? || (b.Some? && StrLe(a.value, b.value))
  }

  lemma NameLeTotal(a: Option<string>, b: Option<string>)
    ensures NameLe(a, b) || NameLe(b, a)
  {
    if a.Some? && b.Some? {
      StrLeTotal(a.value, b.value);
    }
  }

  lemma NameLeTrans(a: Option<string>, b: Option<string>, c: Option<string>)
    requires NameLe(a, b) && NameLe(b, c)
    ensures NameLe(a, c)
  {
    if a.Some? {
      StrLeTrans(a.value, b.value, c.value);
    }
  }

  predicate SortedByName(s: seq<User>) {
    forall i, j :: 0 <= i < j < |s| ==> NameLe(s[i].name, s[j].name)
  }

  /** Every user of s sorts at or after x. */
  predicate AllAfter(x: User, s: seq<User>) {
    forall k :: 0 <= k < |s| ==> NameLe(x.name, s[k].name)
  }

  /** One insertion step of the sort: x goes before the first user it sorts at or before. */
  function Insert(x: User, s: seq<User>): (r: seq<User>)
    ensures multiset(r) == multiset(s) + multiset{x}
    ensures |r| == |s| + 1
  {
    if s == [] then [x]
    else if NameLe(x.name, s[0].name) then
      assert s == [s[0]] + s[1..];
      [x] + s
    else
      assert s == [s[0]] + s[1..];
      [s[0]] + Insert(x, s[1..])
  }

  /** The tail of a sorted listing is sorted and sorts at or after its head. */
  lemma SortedTail(s: seq<User>)
    requires SortedByName(s) && s != []
    ensures SortedByName(s[1..]) && AllAfter(s[0], s[1..])
  {
    var tail := s[1..];
    forall i, j | 0 <= i < j < |tail| ensures NameLe(tail[i].name, tail[j].name) {
      assert tail[i] == s[i + 1] && tail[j] == s[j + 1];
    }
    forall k | 0 <= k < |tail| ensures NameLe(s[0].name, tail[k].name) {
      assert tail[k] == s[k + 1];
    }
  }

  /** A head that sorts at or before a sorted rest gives a sorted listing. */
  lemma ConsSorted(h: User, rest: seq<User>)
    requires SortedByName(rest) && AllAfter(h, rest)
    ensures SortedByName([h] + rest)
  {
    var r := [h] + rest;
    forall i, j | 0 <= i < j < |r| ensures NameLe(r[i].name, r[j].name) {
      assert r[j] == rest[j - 1];
      if i > 0 {
        assert r[i] == rest[i - 1];
      }
    }
  }

  lemma ConsAllAfter(y: User, h: User, rest: seq<User>)
    requires NameLe(y.name, h.name) && AllAfter(y, rest)
    ensures AllAfter(y, [h] + rest)
  {
    var r := [h] + rest;
    forall k | 0 <= k < |r| ensures NameLe(y.name, r[k].name) {
      if k > 0 {
        assert r[k] == rest[k - 1];
      }
    }
  }

  lemma TailAllAfter(y: User, s: seq<User>)
    requires AllAfter(y, s) && s != []
    ensures AllAfter(y, s[1..])
  {
    forall k | 0 <= k < |s| - 1 ensures NameLe(y.name, s[1..][k].name) {
      assert s[1..][k] == s[k + 1];
    }
  }

  /** Inserting into a sorted listing keeps it sorted, and a user that sorts at
      or before x and everything in s still sorts at or before the result. */
  lemma {:induction false} InsertSorted(x: User, s: seq<User>)
    requires SortedByName(s)
    ensures SortedByName(Insert(x, s))
    ensures forall y :: AllAfter(y, s) && NameLe(y.name, x.name) ==> AllAfter(y, Insert(x, s))
  {
    if s == [] {
      return;
    }
    var r := Insert(x, s);
    if NameLe(x.name, s[0].name) {
      assert r == [x] + s;
      assert AllAfter(x, s) by {
        forall k | 0 <= k < |s| ensures NameLe(x.name, s[k].name) {
          if k > 0 {
            NameLeTrans(x.name, s[0].name, s[k].name);
          }
        }
      }
      ConsSorted(x, s);
      forall y | AllAfter(y, s) && NameLe(y.name, x.name) ensures AllAfter(y, r) {
        ConsAllAfter(y, x, s);
      }
    } else {
      NameLeTotal(x.name, s[0].name);
      var tail := s[1..];
      SortedTail(s);
      InsertSorted(x, tail);
      var rest := Insert(x, tail);
      assert r == [s[0]] + rest;
      ConsSorted(s[0], rest);
      forall y | AllAfter(y, s) && NameLe(y.name, x.name) ensures AllAfter(y, r) {
        TailAllAfter(y, s);
        ConsAllAfter(y, s[0], rest);
      }
    }
  }

  /** The listing order: the user table sorted by name. */
  function SortByName(users: seq<User>): (r: seq<User>)
    ensures SortedByName(r)
    ensures multiset(r) == multiset(users)
    ensures |r| == |users|
  {
    if users == [] then []
    else
      assert users == [users[0]] + users[1..];
      InsertSorted(users[0], SortByName(users[1..]));
      Insert(users[0], SortByName(users[1..]))
  }

  /** ProfileSerializer(many=True) over a list of users, in list order. */
  function Profiles(countries: seq<Country>, users: seq<User>): (r: seq<ProfileView>)
    ensures |r| == |users|
    ensures forall k :: 0 <= k < |r| ==> r[k] == SerializeProfile(countries, users[k])
  {
    seq(|users|, k requires 0 <= k < |users| => SerializeProfile(countries, users[k]))
  }

  lemma ProfilesCons(countries: seq<Country>, x: User, s: seq<User>)
    ensures Profiles(countries, [x] + s) == [SerializeProfile(countries, x)] + Profiles(countries, s)
  {
  }

  /** Inserting a user adds its profile, counted with multiplicity. */
  lemma {:induction false} ProfilesInsert(countries: seq<Country>, x: User, s: seq<User>)
    ensures multiset(Profiles(countries, Insert(x, s))) ==
      multiset(Profiles(countries, s)) + multiset{SerializeProfile(countries, x)}
  {
    if s == [] {
      ProfilesCons(countries, x, s);
    } else if NameLe(x.name, s[0].name) {
      ProfilesCons(countries, x, s);
    } else {
      assert s == [s[0]] + s[1..];
      ProfilesInsert(countries, x, s[1..]);
      ProfilesCons(countries, s[0], Insert(x, s[1..]));
      ProfilesCons(countries, s[0], s[1..]);
    }
  }

  /** Sorting the users does not change which profiles are listed, nor how often. */
  lemma {:induction false} ProfilesSort(countries: seq<Country>, users: seq<User>)
    ensures multiset(Profiles(countries, SortByName(users))) == multiset(Profiles(countries, users))
  {
    if users != [] {
      assert users == [users[0]] + users[1..];
      ProfilesSort(countries, users[1..]);
      ProfilesInsert(countries, users[0], SortByName(users[1..]));
      ProfilesCons(countries, users[0], users[1..]);
    }
  }

  /** ListUsersView: every admin, ordered by name, through ProfileSerializer. */
  function ListUsers(t: Tables): (r: seq<ProfileView>)
    ensures |r| == |t.users|
    ensures multiset(r) == multiset(Profiles(t.countries, t.users))
    ensures forall k :: 0 <= k < |r| ==> exists j :: 0 <= j < |t.users| && r[k] == SerializeProfile(t.countries, t.users[j])
    ensures forall k, l :: 0 <= k < l < |r| ==> NameLe(r[k].admin.name, r[l].admin.name)
  {
    var sorted := SortByName(t.users);
    var r := Profiles(t.countries, sorted);
    ProfilesSort(t.countries, t.users);
    forall k | 0 <= k < |r|
      ensures exists j :: 0 <= j < |t.users| && r[k] == SerializeProfile(t.countries, t.users[j])
    {
      assert sorted[k] in multiset(t.users);
      var j :| 0 <= j < |t.users| && t.users[j] == sorted[k];
    }
    r
  }

  // ---------------------------------------------------------------------------
  // PromotingAdmin / DeactiveAdmin
  // ---------------------------------------------------------------------------

  /** PromotingAdmin.post: 404 for an unknown pk, else flip is_staff and save. */
  function PromotingAdminSpec(t: Tables, pk: Pk): (r: (Outcome<Error>, Tables))
    ensures pk !in Ids(t.users, UserKey) <==> r == (Fail(NotFound), t)
    ensures r.0.Fail? ==> r.1 == t
    ensures Valid(t) ==> Valid(r.1)
  {
    match Find(t.users, UserKey, pk)
    case None => (Fail(NotFound), t)
    case Some(i) =>
      SaveUserValid(t, t.users[i].(isStaff := !t.users[i].isStaff));
      SaveUserSpec(t, t.users[i].(isStaff := !t.users[i].isStaff))
  }

  /** On a consistent store the toggle succeeds and changes exactly is_staff of that one user. */
  lemma PromotingAdminFlipsOne(t: Tables, pk: Pk, i: nat)
    requires Valid(t) && i < |t.users| && t.users[i].id == pk
    ensures PromotingAdminSpec(t, pk) == (Pass, t.(users := t.users[i := t.users[i].(isStaff := !t.users[i].isStaff)]))
  {
    FindUnique(t.users, UserKey, i);
    OwnUsernameFree(t.users, i);
    SaveUserAt(t, i, t.users[i].(isStaff := !t.users[i].isStaff));
  }

  /** Promoting twice restores the store. */
  lemma PromotingAdminInvolution(t: Tables, pk: Pk)
    requires Valid(t) && pk in Ids(t.users, UserKey)
    ensures PromotingAdminSpec(PromotingAdminSpec(t, pk).1, pk) == (Pass, t)
  {
    var i := Find(t.users, UserKey, pk).value;
    PromotingAdminFlipsOne(t, pk, i);
    var t1 := PromotingAdminSpec(t, pk).1;
    PromotingAdminFlipsOne(t1, pk, i);
    assert t1.users[i := t1.users[i].(isStaff := !t1.users[i].isStaff)] == t.users;
  }

  method PromotingAdmin(db: Db, pk: Pk) returns (r: Outcome<Error>)
    modifies db
    ensures (r, db.t) == PromotingAdminSpec(old(db.t), pk)
  {
    var i := Find(db.t.users, UserKey, pk);
    if i.None? {
      return Fail(NotFound);
    }
    var admin := db.t.users[i.value];
    admin := admin.(isStaff := !admin.isStaff);
    r := SaveUser(db, admin);
  }

  /** DeactiveAdmin.post: 404 for an unknown pk, else flip is_active and save. */
  function DeactiveAdminSpec(t: Tables, pk: Pk): (r: (Outcome<Error>, Tables))
    ensures pk !in Ids(t.users, UserKey) <==> r == (Fail(NotFound), t)
    ensures r.0.Fail? ==> r.1 == t
    ensures Valid(t) ==> Valid(r.1)
  {
    match Find(t.users, UserKey, pk)
    case None => (Fail(NotFound), t)
    case Some(i) =>
      SaveUserValid(t, t.users[i].(isActive := !t.users[i].isActive));
      SaveUserSpec(t, t.users[i].(isActive := !t.users[i].isActive))
  }

  lemma DeactiveAdminFlipsOne(t: Tables, pk: Pk, i: nat)
    requires Valid(t) && i < |t.users| && t.users[i].id == pk
    ensures DeactiveAdminSpec(t, pk) == (Pass, t.(users := t.users[i := t.users[i].(isActive := !t.users[i].isActive)]))
  {
    FindUnique(t.users, UserKey, i);
    OwnUsernameFree(t.users, i);
    SaveUserAt(t, i, t.users[i].(isActive := !t.users[i].isActive));
  }

  lemma DeactiveAdminInvolution(t: Tables, pk: Pk)
    requires Valid(t) && pk in Ids(t.users, UserKey)
    ensures DeactiveAdminSpec(DeactiveAdminSpec(t, pk).1, pk) == (Pass, t)
  {
    var i := Find(t.users, UserKey, pk).value;
    DeactiveAdminFlipsOne(t, pk, i);
    var t1 := DeactiveAdminSpec(t, pk).1;
    DeactiveAdminFlipsOne(t1, pk, i);
    assert t1.users[i := t1.users[i].(isActive := !t1.users[i].isActive)] == t.users;
  }

  method DeactiveAdmin(db: Db, pk: Pk) returns (r: Outcome<Error>)
    modifies db
    ensures (r, db.t) == DeactiveAdminSpec(old(db.t), pk)
  {
    var i := Find(db.t.users, UserKey, pk);
    if i.None? {
      return Fail(NotFound);
    }
    var admin := db.t.users[i.value];
    admin := admin.(isActive := !admin.isActive);
    r := SaveUser(db, admin);
  }

  /** Under unique usernames the user found for a username is its holder. */
  lemma FindUsernameHolder(users: seq<User>, i: nat)
    requires UniqueUsernames(users) && i < |users|
    ensures FindUsername(users, users[i].username) == Some(i)
  {
    var r := FindUsername(users, users[i].username);
    assert r.Some?;
    assert !(r.value < i) && !(i < r.value);
  }

  /** A deactivated admin can no longer log in, whatever the password. */
  lemma DeactivatedAdminCannotLogIn(t: Tables, pk: Pk, i: nat, password: string)
    requires Valid(t) && i < |t.users| && t.users[i].id == pk && t.users[i].isActive
    ensures ModelBackend(DeactiveAdminSpec(t, pk).1.users, t.users[i].username, password).None?
  {
    DeactiveAdminFlipsOne(t, pk, i);
    var t1 := DeactiveAdminSpec(t, pk).1;
    FindUsernameHolder(t1.users, i);
  }
}
