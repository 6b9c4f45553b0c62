/** app/admins/serializers.py: the admin write serializer (field validation,
    create, update), the read side with its computed fields, and the login
    check. The credential check `authenticate` is a parameter; ModelBackend
    below is the default one it stands for. */
module AdminsSerializers {
  import opened Common
  import opened Text
  import opened Table
  import opened CoreModels

  // ---------------------------------------------------------------------------
  // AdminSerializer: validation
  // ---------------------------------------------------------------------------

  /** The AdminSerializer fields of one request body. None: the key is absent;
      for a nullable column, Some(None) is an explicit null. */
  datatype AdminInput = AdminInput(
    username: Option<string>, email: Option<string>, password: Option<string>,
    name: Option<Option<string>>, title: Option<Option<string>>,
    address: Option<Option<string>>, phone: Option<Option<string>>,
    postalCode: Option<Option<string>>, birthDate: Option<Option<Date>>,
    nationality: Option<Option<Pk>>, isStaff: Option<bool>, isActive: Option<bool>)

  /** The min_length of the password field. */
  const MinPasswordLength: nat := 6

  /** The username is held by a user other than the one being edited. */
  predicate Taken(users: seq<User>, username: string, instance: Option<Pk>) {
    exists k :: 0 <= k < |users| && users[k].username == username && Some(users[k].id) != instance
  }

  /** username: required, not blank, and unique (UniqueValidator, which leaves
      the edited instance out). A PATCH does not require absent keys. */
  function UsernameErrors(users: seq<User>, username: Option<string>, instance: Option<Pk>, partial: bool): seq<Violation> {
    match username
    case None => if partial then [] else [Required("username")]
    case Some(u) =>
      if u == [] then [BlankField("username")]
      else if Taken(users, u, instance) then [UsernameTaken]
      else []
  }

  /** email: required and not blank. */
  function EmailErrors(email: Option<string>, partial: bool): seq<Violation> {
    match email
    case None => if partial then [] else [Required("email")]
    case Some(e) => if e == [] then [BlankField("email")] else []
  }

  /** password: required, not blank, at least six characters. */
  function PasswordErrors(password: Option<string>, partial: bool): seq<Violation> {
    match password
    case None => if partial then [] else [Required("password")]
    case Some(p) =>
      if p == [] then [BlankField("password")]
      else if |p| < MinPasswordLength then [PasswordTooShort]
      else []
  }

  /** nationality: a PrimaryKeyRelatedField over Country.objects.all(); null
      is allowed, a key no country holds is refused. */
  function NationalityErrors(countries: seq<Country>, nationality: Option<Option<Pk>>): seq<Violation> {
    match nationality
    case Some(Some(k)) => if k in Ids(countries, CountryKey) then [] else [UnknownReference("nationality")]
    case _ => []
  }

  /** The body names a nationality no Country row holds. */
  predicate DanglingNationality(countries: seq<Country>, input: AdminInput) {
    input.nationality.Some? && input.nationality.value.Some? && input.nationality.value.value !in Ids(countries, CountryKey)
  }

  /** The field errors of one request, in the order the fields are declared. */
  function AdminFieldErrors(users: seq<User>, countries: seq<Country>, input: AdminInput, instance: Option<Pk>, partial: bool): (v: seq<Violation>)
    ensures PasswordTooShort in v <==> input.password.Some? && 0 < |input.password.value| < MinPasswordLength
    ensures UsernameTaken in v <==>
      input.username.Some? && input.username.value != [] && Taken(users, input.username.value, instance)
    ensures v == [] && !partial ==> input.username.Some? && input.email.Some? && input.password.Some?
    ensures v == [] && input.username.Some? ==> input.username.value != []
    ensures v == [] && input.username.Some? ==> forall k :: (0 <= k < |users| && users[k].username == input.username.value
      ==> Some(users[k].id) == instance)
    ensures v == [] && input.password.Some? ==> |input.password.value| >= MinPasswordLength
    ensures UnknownReference("nationality") in v <==> DanglingNationality(countries, input)
  {
    UsernameErrors(users, input.username, instance, partial)
      + EmailErrors(input.email, partial)
      + PasswordErrors(input.password, partial)
      + NationalityErrors(countries, input.nationality)
  }

  // ---------------------------------------------------------------------------
  // AdminSerializer.create
  // ---------------------------------------------------------------------------

  /** The keyword arguments create_user receives: the keys the body gave,
      the model defaults for the others. */
  function CreateFields(input: AdminInput): (f: UserFields)
    ensures f.isSuperuser == false && f.createdBy == None
    ensures input.title.None? ==> f.title == Some("BTC Admin")
    ensures input.isActive.None? ==> f.isActive
  {
    var d := DefaultUserFields;
    UserFields(OrElse(input.name, d.name), OrElse(input.title, d.title), OrElse(input.address, d.address),
               OrElse(input.phone, d.phone), OrElse(input.postalCode, d.postalCode),
               OrElse(input.birthDate, d.birthDate), OrElse(input.nationality, d.nationality),
               OrElse(input.isStaff, d.isStaff), OrElse(input.isActive, d.isActive),
               d.isSuperuser, d.createdBy)
  }

  /** CreateAdminView: validate, then create_user with the validated data. */
  function AdminCreateSpec(t: Tables, input: AdminInput): (r: (Result<Pk, Error>, Tables))
    ensures r.0.Ok? <==> AdminFieldErrors(t.users, t.countries, input, None, false) == []
    ensures r.0.Err? ==> r.1 == t
    ensures input.password.Some? && |input.password.value| < MinPasswordLength ==> r.0.Err? && r.1 == t
    ensures r.0.Ok? ==> r.0.value !in Ids(t.users, UserKey)
    ensures r.0.Ok? ==> r.1 == t.(users := t.users +
      [NewUser(r.0.value, input.username.value, input.email, input.password, CreateFields(input))])
    ensures r.0.Ok? ==> CheckPassword(r.1.users[|t.users|].password, input.password.value)
    ensures DanglingNationality(t.countries, input) ==> r.0.Err? && r.1 == t
    ensures r.0.Ok? ==> r.1.users[|t.users|].nationality.None?
                        || r.1.users[|t.users|].nationality.value in Ids(t.countries, CountryKey)
    ensures Valid(t) ==> Valid(r.1)
  {
    var errors := AdminFieldErrors(t.users, t.countries, input, None, false);
    if errors != [] then (Err(ValidationError(errors)), t)
    else CreateUserSpec(t, input.username, input.email, input.password, CreateFields(input))
  }

  method AdminCreate(db: Db, input: AdminInput) returns (r: Result<Pk, Error>)
    requires Valid(db.t)
    modifies db
    ensures (r, db.t) == AdminCreateSpec(old(db.t), input)
  {
    var errors := AdminFieldErrors(db.t.users, db.t.countries, input, None, false);
    if errors != [] {
      return Err(ValidationError(errors));
    }
    r := CreateUser(db, input.username, input.email, input.password, CreateFields(input));
  }

  // ---------------------------------------------------------------------------
  // AdminSerializer.update
  // ---------------------------------------------------------------------------

  /** ModelSerializer.update: every key of the body but the popped password is
      set on the instance; absent keys keep the stored value. */
  function Assign(u: User, input: AdminInput): (r: User)
    ensures r.id == u.id && r.password == u.password && r.isSuperuser == u.isSuperuser
    ensures r.createdBy == u.createdBy && r.lastLogin == u.lastLogin
    ensures input == AdminInput(None, None, input.password, None, None, None, None, None, None, None, None, None) ==> r == u
  {
    u.(username := OrElse(input.username, u.username), email := OrElse(input.email, u.email),
       name := OrElse(input.name, u.name), title := OrElse(input.title, u.title),
       address := OrElse(input.address, u.address), phone := OrElse(input.phone, u.phone),
       postalCode := OrElse(input.postalCode, u.postalCode), birthDate := OrElse(input.birthDate, u.birthDate),
       nationality := OrElse(input.nationality, u.nationality),
       isStaff := OrElse(input.isStaff, u.isStaff), isActive := OrElse(input.isActive, u.isActive))
  }

  /** The password rule of update: reset only when a non-empty one was sent. */
  function NewCredential(stored: Credential, password: Option<string>): (c: Credential)
    ensures password.Some? && password.value != [] ==> CheckPassword(c, password.value)
    ensures password.None? ==> c == stored
  {
    if password.Some? && password.value != [] then SetPassword(password) else stored
  }

  /** ManageUserView update of the authenticated admin `pk` (PUT, or PATCH when
      `partial`): validate, save the other fields, then, for a non-empty
      password, set it and save again. */
  function AdminUpdateSpec(t: Tables, pk: Pk, input: AdminInput, partial: bool): (r: (Outcome<Error>, Tables))
    requires pk in Ids(t.users, UserKey)
    ensures AdminFieldErrors(t.users, t.countries, input, Some(pk), partial) != [] ==> r.0.Fail? && r.1 == t
    ensures DanglingNationality(t.countries, input) ==> r.0.Fail? && r.1 == t
    ensures Valid(t) ==> Valid(r.1)
  {
    var errors := AdminFieldErrors(t.users, t.countries, input, Some(pk), partial);
    if errors != [] then (Fail(ValidationError(errors)), t)
    else
      var admin := Assign(t.users[Find(t.users, UserKey, pk).value], input);
      SaveUserValid(t, admin);
      var (o, t1) := SaveUserSpec(t, admin);
      if o.Fail? then (o, t)
      else if input.password.Some? && input.password.value != [] then
        SaveUserValid(t1, admin.(password := SetPassword(input.password)));
        SaveUserSpec(t1, admin.(password := SetPassword(input.password)))
      else (Pass, t1)
  }

  /** Under unique usernames, a user's own username is free for its own key. */
  lemma OwnUsernameFree(users: seq<User>, i: nat)
    requires UniqueUsernames(users) && i < |users|
    ensures UsernameFree(users, users[i].username, users[i].id)
  {
    forall k | 0 <= k < |users| ensures users[k].id == users[i].id || users[k].username != users[i].username {
      assert k < i || k == i || i < k;
    }
  }

  /** Row i overwritten by its own new value keeps that value's username free. */
  lemma UsernameFreeUpdate(users: seq<User>, i: nat, u: User)
    requires i < |users| && users[i].id == u.id && UsernameFree(users, u.username, u.id)
    ensures UsernameFree(users[i := u], u.username, u.id)
  {
    var s := users[i := u];
    forall k | 0 <= k < |s| ensures s[k].id == u.id || s[k].username != u.username {
      if k != i {
        assert s[k] == users[k];
      }
    }
  }

  /** Saving a row under the key of row i, with a free username, overwrites row i. */
  lemma SaveUserAt(t: Tables, i: nat, u: User)
    requires Unique(Ids(t.users, UserKey)) && i < |t.users| && u.id == t.users[i].id
    requires UsernameFree(t.users, u.username, u.id)
    ensures SaveUserSpec(t, u) == (Pass, t.(users := t.users[i := u]))
  {
    UpsertAt(t.users, UserKey, i, u);
  }

  /** On a consistent store a valid update succeeds and rewrites exactly the
      admin's row: the sent fields, and the password only when a non-empty one
      was sent. */
  lemma AdminUpdateEffect(t: Tables, pk: Pk, input: AdminInput, partial: bool, i: nat)
    requires Unique(Ids(t.users, UserKey)) && UniqueUsernames(t.users) && i < |t.users| && t.users[i].id == pk
    requires AdminFieldErrors(t.users, t.countries, input, Some(pk), partial) == []
    ensures pk in Ids(t.users, UserKey)
    ensures AdminUpdateSpec(t, pk, input, partial) ==
      (Pass, t.(users := t.users[i := Assign(t.users[i], input).(password := NewCredential(t.users[i].password, input.password))]))
  {
    assert Ids(t.users, UserKey)[i] == pk;
    FindUnique(t.users, UserKey, i);
    var admin := Assign(t.users[i], input);
    if input.username.None? {
      OwnUsernameFree(t.users, i);
    }
    SaveUserAt(t, i, admin);
    if input.password.Some? && input.password.value != [] {
      var t1 := t.(users := t.users[i := admin]);
      var admin2 := admin.(password := SetPassword(input.password));
      IdsUpdate(t.users, UserKey, i, admin);
      UsernameFreeUpdate(t.users, i, admin);
      SaveUserAt(t1, i, admin2);
      assert t1.users[i := admin2] == t.users[i := admin2];
    }
  }

  method AdminUpdate(db: Db, pk: Pk, input: AdminInput, partial: bool) returns (r: Outcome<Error>)
    requires pk in Ids(db.t.users, UserKey)
    modifies db
    ensures (r, db.t) == AdminUpdateSpec(old(db.t), pk, input, partial)
  {
    var errors := AdminFieldErrors(db.t.users, db.t.countries, input, Some(pk), partial);
    if errors != [] {
      return Fail(ValidationError(errors));
    }
    var password := input.password;
    var admin := Assign(db.t.users[Find(db.t.users, UserKey, pk).value], input);
    r := SaveUser(db, admin);
    if r.Fail? {
      return;
    }
    if password.Some? && password.value != [] {
      admin := admin.(password := SetPassword(password));
      r := SaveUser(db, admin);
    }
  }

  // ---------------------------------------------------------------------------
  // AdminSerializer / ProfileSerializer: the read side
  // ---------------------------------------------------------------------------

  /** The Country row a user's nationality points at. */
  function NationalityOf(countries: seq<Country>, u: User): (c: Option<Country>)
    ensures c.Some? ==> u.nationality == Some(c.value.id) && c.value in countries
    ensures u.nationality.Some? && u.nationality.value in Ids(countries, CountryKey) ==> c.Some?
  {
    match u.nationality
    case None => None
    case Some(id) => Get(countries, CountryKey, id)
  }

  /** get_nation: str(obj.nationality), the name of the related Country, or
      "None" when the user has no nationality. */
  function Nation(countries: seq<Country>, u: User): (s: string)
    ensures u.nationality.None? ==> s == "None"
    ensures u.nationality.Some? && u.nationality.value in Ids(countries, CountryKey) ==>
      exists k :: 0 <= k < |countries| && countries[k].id == u.nationality.value && s == countries[k].name
  {
    match NationalityOf(countries, u)
    case None => "None"
    case Some(c) =>
      assert exists k :: 0 <= k < |countries| && countries[k] == c;
      c.name
  }

  /** An admin created with a nationality shows that country's name as its nation. */
  lemma CreatedAdminNation(t: Tables, input: AdminInput, k: Pk)
    requires AdminCreateSpec(t, input).0.Ok? && input.nationality == Some(Some(k))
    ensures var t1 := AdminCreateSpec(t, input).1;
      exists j :: 0 <= j < |t.countries| && t.countries[j].id == k
                  && Nation(t1.countries, t1.users[|t.users|]) == t.countries[j].name
  {
    var t1 := AdminCreateSpec(t, input).1;
    assert t1.users[|t.users|].nationality == Some(k);
  }

  /** The AdminSerializer output. The password is write-only and so absent. */
  datatype AdminView = AdminView(
    id: Pk, username: string, name: Option<string>, address: Option<string>,
    phone: Option<string>, postalCode: Option<string>, birthDate: Option<Date>,
    isActive: bool, email: string, isStaff: bool, title: Option<string>,
    nationality: Option<Pk>, nation: string)

  function SerializeAdmin(countries: seq<Country>, u: User): (v: AdminView)
    ensures v.id == u.id && v.username == u.username && v.nation == Nation(countries, u)
  {
    AdminView(u.id, u.username, u.name, u.address, u.phone, u.postalCode, u.birthDate,
              u.isActive, u.email, u.isStaff, u.title, u.nationality,
              Nation(countries, u))
  }

  /** Two users serialize alike exactly when they differ at most in what the
      serializer does not show: the password and the fields not listed. */
  lemma SerializeAdminShows(countries: seq<Country>, a: User, b: User)
    ensures SerializeAdmin(countries, a) == SerializeAdmin(countries, b) <==>
      a == b.(password := a.password, isSuperuser := a.isSuperuser, createdBy := a.createdBy, lastLogin := a.lastLogin)
  {
  }

  /** get_last_log: "Y/M/D   H:M" with every part unpadded, None before the first login. */
  function GetLastLog(lastLogin: Option<DateTime>): (s: Option<string>)
    ensures s.None? <==> lastLogin.None?
  {
    match lastLogin
    case None => None
    case Some(dt) =>
      Some(NatToString(dt.date.year) + "/" + NatToString(dt.date.month) + "/" + NatToString(dt.date.day)
           + "   " + NatToString(dt.hour) + ":" + NatToString(dt.minute))
  }

  /** Reads "Y/M/D   H:M" back. */
  function ParseLastLog(s: string): Option<DateTime> {
    var parts := Split(s, ' ');
    if |parts| == 4 && parts[1] == [] && parts[2] == [] then
      var date := Split(parts[0], '/');
      var time := Split(parts[3], ':');
      if |date| == 3 && AllDigits(date[0]) && AllDigits(date[1]) && AllDigits(date[2])
         && |time| == 2 && AllDigits(time[0]) && AllDigits(time[1]) then
        Some(DateTime(Date(ParseNat(date[0]), ParseNat(date[1]), ParseNat(date[2])),
                      ParseNat(time[0]), ParseNat(time[1])))
      else None
    else None
  }

  /** Reading "<date>   <time>" once both halves are known to split cleanly. */
  lemma ParseLastLogParts(date: string, time: string, dt: DateTime)
    requires ' ' !in date && ' ' !in time
    requires Split(date, '/') == [NatToString(dt.date.year), NatToString(dt.date.month), NatToString(dt.date.day)]
    requires Split(time, ':') == [NatToString(dt.hour), NatToString(dt.minute)]
    ensures ParseLastLog(date + "   " + time) == Some(dt)
  {
    SplitDateAndTime(date, time);
    ParseNatToString(dt.date.year);
    ParseNatToString(dt.date.month);
    ParseNatToString(dt.date.day);
    ParseNatToString(dt.hour);
    ParseNatToString(dt.minute);
  }

  /** Unlike dateTimeToString, the login stamp loses nothing: it reads back. */
  lemma GetLastLogRoundTrip(dt: DateTime)
    ensures ParseLastLog(GetLastLog(Some(dt)).value) == Some(dt)
  {
    var y, m, d := NatToString(dt.date.year), NatToString(dt.date.month), NatToString(dt.date.day);
    var date := y + "/" + m + "/" + d;
    var time := NatToString(dt.hour) + ":" + NatToString(dt.minute);
    DigitsHaveNo(y, '/');
    DigitsHaveNo(m, '/');
    DigitsHaveNo(d, '/');
    SplitThree(y, m, d, '/');
    DigitsHaveNo(y, ' ');
    DigitsHaveNo(m, ' ');
    DigitsHaveNo(d, ' ');
    assert ' ' !in date;
    TimeParts(dt.hour, dt.minute);
    assert GetLastLog(Some(dt)).value == date + "   " + time;
    ParseLastLogParts(date, time, dt);
  }

  lemma GetLastLogExample()
    ensures GetLastLog(Some(DateTime(Date(2021, 3, 5), 9, 7))) == Some("2021/3/5   9:7")
  {
    assert NatToString(2021) == "2021" by {
      assert NatToString(2) == "2" && NatToString(20) == "20" && NatToString(202) == "202";
    }
    assert NatToString(3) == "3" && NatToString(5) == "5" && NatToString(9) == "9" && NatToString(7) == "7";
    assert GetLastLog(Some(DateTime(Date(2021, 3, 5), 9, 7))).value == "2021" + "/" + "3" + "/" + "5" + "   " + "9" + ":" + "7";
    assert "2021" + "/" + "3" + "/" + "5" + "   " + "9" + ":" + "7" == "2021/3/5   9:7";
  }

  /** The ProfileSerializer output: the admin fields and last_log. */
  datatype ProfileView = ProfileView(admin: AdminView, lastLog: Option<string>)

  function SerializeProfile(countries: seq<Country>, u: User): (v: ProfileView)
    ensures v.admin == SerializeAdmin(countries, u)
    ensures u.lastLogin.Some? ==> v.lastLog.Some? && ParseLastLog(v.lastLog.value) == u.lastLogin
    ensures u.lastLogin.None? ==> v.lastLog.None?
  {
    if u.lastLogin.Some? then
      GetLastLogRoundTrip(u.lastLogin.value);
      ProfileView(SerializeAdmin(countries, u), GetLastLog(u.lastLogin))
    else ProfileView(SerializeAdmin(countries, u), None)
  }

  // ---------------------------------------------------------------------------
  // AuthTokenSerializer.validate
  // ---------------------------------------------------------------------------

  datatype AuthInput = AuthInput(username: Option<string>, password: Option<string>)

  /** The two CharFields: required and not blank. */
  function AuthFieldErrors(input: AuthInput): (v: seq<Violation>)
    ensures v == [] <==> input.username.Some? && input.username.value != []
                         && input.password.Some? && input.password.value != []
  {
    (match input.username
     case None => [Required("username")]
     case Some(u) => if u == [] then [BlankField("username")] else [])
    + (match input.password
       case None => [Required("password")]
       case Some(p) => if p == [] then [BlankField("password")] else [])
  }

  /** validate: the user `authenticate` accepts, or AuthenticationFailed. */
  function AuthValidate(input: AuthInput, authenticate: (string, string) -> Option<Pk>): (r: Result<Pk, Error>)
    ensures r.Ok? <==> AuthFieldErrors(input) == [] && authenticate(input.username.value, input.password.value).Some?
    ensures r.Ok? ==> authenticate(input.username.value, input.password.value) == Some(r.value)
    ensures AuthFieldErrors(input) == [] && r.Err? ==> r.error == AuthenticationFailed
  {
    var errors := AuthFieldErrors(input);
    if errors != [] then Err(ValidationError(errors))
    else match authenticate(input.username.value, input.password.value)
      case None => Err(AuthenticationFailed)
      case Some(id) => Ok(id)
  }

  /** The position of the first user with this username (get_by_natural_key). */
  function FindUsername(users: seq<User>, username: string): (r: Option<nat>)
    ensures r.Some? ==> r.value < |users| && users[r.value].username == username
    ensures r.Some? ==> forall k :: 0 <= k < r.value ==> users[k].username != username
    ensures r.None? ==> forall k :: 0 <= k < |users| ==> users[k].username != username
  {
    if users == [] then None
    else if users[0].username == username then Some(0)
    else match FindUsername(users[1..], username)
      case None => None
      case Some(j) => Some(j + 1)
  }

  /** Django's ModelBackend, the authenticate the project configures: the user
      with that username, if the password matches and the account is active. */
  function ModelBackend(users: seq<User>, username: string, password: string): (r: Option<Pk>)
    ensures r.Some? ==> exists k :: (0 <= k < |users| && users[k].id == r.value && users[k].username == username
      && CheckPassword(users[k].password, password) && users[k].isActive)
  {
    match FindUsername(users, username)
    case None => None
    case Some(k) =>
      if CheckPassword(users[k].password, password) && users[k].isActive then Some(users[k].id) else None
  }

  /** A user appended under a username nobody holds is the one found for it. */
  lemma FindUsernameAppended(users: seq<User>, u: User)
    requires forall k :: 0 <= k < |users| ==> users[k].username != u.username
    ensures FindUsername(users + [u], u.username) == Some(|users|)
  {
    var s := users + [u];
    assert s[|users|].username == u.username;
    assert forall k :: 0 <= k < |users| ==> s[k] == users[k];
  }

  /** An admin created through the API logs in with the username and password
      it was created with (unless it was created inactive). */
  lemma CreatedAdminCanLogIn(t: Tables, input: AdminInput)
    requires AdminCreateSpec(t, input).0.Ok? && input.isActive != Some(false)
    ensures var (r, t1) := AdminCreateSpec(t, input);
      AuthValidate(AuthInput(input.username, input.password), (u, p) => ModelBackend(t1.users, u, p)) == Ok(r.value)
  {
    var (r, t1) := AdminCreateSpec(t, input);
    assert AdminFieldErrors(t.users, t.countries, input, None, false) == [];
    var nu := NewUser(r.value, input.username.value, input.email, input.password, CreateFields(input));
    assert t1.users == t.users + [nu];
    FindUsernameAppended(t.users, nu);
    assert nu.isActive && CheckPassword(nu.password, input.password.value);
    assert ModelBackend(t1.users, nu.username, input.password.value) == Some(r.value);
  }
}
