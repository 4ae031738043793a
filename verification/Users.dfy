// detector.go, and from anytls.go the user checks of Validate and anyTLSUsers:
// the detector and the AnyTLS service must know the same users.
module Users {
  import opened Wrappers
  import opened Transport

  // A SHA-256 sum. The hash itself is a parameter throughout.
  type Digest = s: seq<byte> | |s| == 32 witness seq(32, _ => 0)

  datatype User = User(name: string, password: string, enabled: bool)

  datatype Decision = Fallback | AnyTls | Reject

  datatype DetectError = ShortPreview | UnknownUserHash | DisabledUserHash

  datatype UserError = EmptyName | EmptyPassword | DuplicateName | SharedPassword

  // ---- The detector ----

  // Later users overwrite earlier ones.
  function DetectorMap(users: seq<User>, hash: string -> Digest): map<Digest, bool> {
    if users == [] then map[]
    else
      var last := users[|users| - 1];
      DetectorMap(users[..|users| - 1], hash)[hash(last.password) := last.enabled]
  }

  method NewPasswordHashDetector(users: seq<User>, hash: string -> Digest) returns (known: map<Digest, bool>)
    ensures known == DetectorMap(users, hash)
  {
    known := map[];
    for i := 0 to |users|
      invariant known == DetectorMap(users[..i], hash)
    {
      assert users[..i + 1][..i] == users[..i];
      known := known[hash(users[i].password) := users[i].enabled];
    }
    assert users[..|users|] == users;
  }

  function Detect(known: map<Digest, bool>, preview: seq<byte>): (Decision, Option<DetectError>) {
    if |preview| < 32 then (Fallback, Some(ShortPreview))
    else if preview[..32] !in known then (Fallback, Some(UnknownUserHash))
    else if !known[preview[..32]] then (Reject, Some(DisabledUserHash))
    else (AnyTls, None)
  }

  ghost predicate IsLast(users: seq<User>, hash: string -> Digest, h: Digest, i: nat)
    requires i < |users|
  {
    hash(users[i].password) == h && forall k :: i < k < |users| ==> hash(users[k].password) != h
  }

  // For any list: a hash is known by the last user that has it.
  lemma {:induction false} LastUserWins(users: seq<User>, hash: string -> Digest, h: Digest)
    ensures var known := DetectorMap(users, hash);
      && (h in known <==> exists i :: 0 <= i < |users| && hash(users[i].password) == h)
      && (h in known ==> exists i :: 0 <= i < |users| && IsLast(users, hash, h, i) && users[i].enabled == known[h])
  {
    if users != [] {
      var n := |users| - 1;
      LastUserWins(users[..n], hash, h);
      assert hash(users[n].password) == h ==> IsLast(users, hash, h, n);
      if hash(users[n].password) != h && h in DetectorMap(users[..n], hash) {
        var known := DetectorMap(users[..n], hash);
        var i :| 0 <= i < n && IsLast(users[..n], hash, h, i) && users[..n][i].enabled == known[h];
        StaysLast(users, hash, h, i);
      }
    }
  }

  lemma StaysLast(users: seq<User>, hash: string -> Digest, h: Digest, i: nat)
    requires i < |users| - 1 && IsLast(users[..|users| - 1], hash, h, i)
    requires hash(users[|users| - 1].password) != h
    ensures IsLast(users, hash, h, i) && users[i] == users[..|users| - 1][i]
  {
    assert forall k :: 0 <= k < |users| - 1 ==> users[..|users| - 1][k] == users[k];
  }

  // ---- The checks of Validate ----

  ghost predicate Sound(u: User) { u.name != "" && u.password != "" }

  ghost predicate ValidUsers(users: seq<User>, hash: string -> Digest) {
    && (forall i :: 0 <= i < |users| ==> Sound(users[i]))
    && (forall i, k :: 0 <= i < k < |users| ==> users[i].name != users[k].name)
    && (forall i, k :: 0 <= i < k < |users| ==> hash(users[i].password) != hash(users[k].password))
  }

  // The first user that breaks the list, and the first check it fails.
  ghost predicate Breaks(users: seq<User>, hash: string -> Digest, n: nat, e: UserError) {
    && n < |users| && ValidUsers(users[..n], hash)
    && var u := users[n];
       match e
       case EmptyName => u.name == ""
       case EmptyPassword => u.name != "" && u.password == ""
       case DuplicateName => Sound(u) && exists i :: 0 <= i < n && users[i].name == u.name
       case SharedPassword =>
         && Sound(u) && (forall i :: 0 <= i < n ==> users[i].name != u.name)
         && exists i :: 0 <= i < n && hash(users[i].password) == hash(u.password)
  }

  method ValidateUsers(users: seq<User>, hash: string -> Digest) returns (r: Option<UserError>, ghost at: nat)
    ensures r == None <==> ValidUsers(users, hash)
    ensures r.Some? ==> Breaks(users, hash, at, r.value)
  {
    var seen: seq<string> := [];
    var passwords: map<Digest, string> := map[];
    at := 0;
    for i := 0 to |users|
      invariant at == i == |seen|
      invariant forall k :: 0 <= k < i ==> seen[k] == users[k].name
      invariant forall h :: h in passwords <==> exists k :: 0 <= k < i && hash(users[k].password) == h
      invariant ValidUsers(users[..i], hash)
    {
      var user := users[i];
      Shorter(users, hash, i);
      if user.name == "" {
        return Some(EmptyName), at;
      }
      if user.password == "" {
        return Some(EmptyPassword), at;
      }
      if user.name in seen {
        return Some(DuplicateName), at;
      }
      var passwordHash := hash(user.password);
      if passwordHash in passwords {
        return Some(SharedPassword), at;
      }
      passwords := passwords[passwordHash := user.name];
      seen := seen + [user.name];
      at := at + 1;
      OneMoreValid(users, hash, i);
    }
    assert users[..|users|] == users;
    return None, at;
  }

  lemma Shorter(users: seq<User>, hash: string -> Digest, n: nat)
    requires n < |users|
    ensures ValidUsers(users, hash) ==>
      Sound(users[n]) && forall i :: 0 <= i < n ==>
        users[i].name != users[n].name && hash(users[i].password) != hash(users[n].password)
  {
  }

  lemma OneMoreValid(users: seq<User>, hash: string -> Digest, n: nat)
    requires n < |users| && ValidUsers(users[..n], hash) && Sound(users[n])
    requires forall i :: 0 <= i < n ==> users[i].name != users[n].name && hash(users[i].password) != hash(users[n].password)
    ensures ValidUsers(users[..n + 1], hash)
  {
    var s := users[..n + 1];
    assert forall i :: 0 <= i < n ==> users[..n][i] == s[i] == users[i];
  }

  // ---- The users of the service ----

  function EnabledUsers(users: seq<User>): (r: seq<User>) {
    if users == [] then []
    else EnabledUsers(users[..|users| - 1]) + if users[|users| - 1].enabled then [users[|users| - 1]] else []
  }

  method AnyTLSUsers(lwUsers: seq<User>) returns (users: seq<User>)
    ensures users == EnabledUsers(lwUsers)
    ensures exists at :: PicksEnabled(lwUsers, users, at)
  {
    users := [];
    for i := 0 to |lwUsers|
      invariant users == EnabledUsers(lwUsers[..i])
    {
      var user := lwUsers[i];
      assert lwUsers[..i + 1][..i] == lwUsers[..i];
      if !user.enabled {
        continue;
      }
      users := users + [user];
    }
    assert lwUsers[..|lwUsers|] == lwUsers;
    ghost var at := EnabledInOrder(lwUsers);
  }

  // picked is the enabled users of the list, unchanged and in order: its k-th
  // entry is the list's at[k]-th.
  ghost predicate PicksEnabled(users: seq<User>, picked: seq<User>, at: seq<nat>) {
    && |at| == |picked|
    && (forall k :: 0 <= k < |at| ==> at[k] < |users| && picked[k] == users[at[k]])
    && (forall j, k :: 0 <= j < k < |at| ==> at[j] < at[k])
    && (forall i :: 0 <= i < |users| ==> (users[i].enabled <==> i in at))
  }

  lemma {:induction false} EnabledInOrder(users: seq<User>) returns (at: seq<nat>)
    ensures PicksEnabled(users, EnabledUsers(users), at)
  {
    at := [];
    if users != [] {
      var n := |users| - 1;
      at := EnabledInOrder(users[..n]);
      at := OneMorePicked(users, EnabledUsers(users[..n]), at);
    }
  }

  lemma OneMorePicked(users: seq<User>, picked: seq<User>, at: seq<nat>) returns (at': seq<nat>)
    requires users != [] && PicksEnabled(users[..|users| - 1], picked, at)
    ensures PicksEnabled(users, picked + if users[|users| - 1].enabled then [users[|users| - 1]] else [], at')
  {
    var n := |users| - 1;
    at' := at;
    if users[n].enabled {
      LastIsPicked(users, picked, at);
      at' := at + [n];
    } else {
      LastIsSkipped(users, picked, at);
      assert picked + [] == picked;
    }
  }

  lemma LastIsPicked(users: seq<User>, picked: seq<User>, at: seq<nat>)
    requires users != [] && PicksEnabled(users[..|users| - 1], picked, at) && users[|users| - 1].enabled
    ensures PicksEnabled(users, picked + [users[|users| - 1]], at + [|users| - 1])
  {
    var n := |users| - 1;
    forall i | 0 <= i < |users| ensures users[i].enabled <==> i in at + [n] {
      if i < n { assert users[..n][i] == users[i]; }
    }
  }

  lemma LastIsSkipped(users: seq<User>, picked: seq<User>, at: seq<nat>)
    requires users != [] && PicksEnabled(users[..|users| - 1], picked, at) && !users[|users| - 1].enabled
    ensures PicksEnabled(users, picked, at)
  {
    var n := |users| - 1;
    forall i | 0 <= i < |users| ensures users[i].enabled <==> i in at {
      if i < n { assert users[..n][i] == users[i]; }
    }
  }

  // No other list is so picked.
  lemma {:induction false} OnePick(users: seq<User>, picked: seq<User>, at: seq<nat>)
    requires PicksEnabled(users, picked, at)
    ensures picked == EnabledUsers(users)
  {
    if users != [] {
      var n, m := |users| - 1, |at| - 1;
      var rest := users[..n];
      if users[n].enabled {
        var k :| 0 <= k < |at| && at[k] == n;
        assert k == m;
        PickOfRest(users, picked, at, m);
        OnePick(rest, picked[..m], at[..m]);
        assert picked == picked[..m] + [picked[m]];
      } else {
        PickOfRest(users, picked, at, |at|);
        OnePick(rest, picked, at);
      }
    }
  }

  lemma PickOfRest(users: seq<User>, picked: seq<User>, at: seq<nat>, m: nat)
    requires PicksEnabled(users, picked, at) && users != []
    requires if users[|users| - 1].enabled then m == |at| - 1 && at[m] == |users| - 1 else m == |at|
    ensures PicksEnabled(users[..|users| - 1], picked[..m], at[..m])
    ensures m == |at| ==> picked[..m] == picked && at[..m] == at
  {
    var n := |users| - 1;
    forall i | 0 <= i < n ensures users[..n][i].enabled <==> i in at[..m] {
      if i in at {
        var k :| 0 <= k < |at| && at[k] == i;
        assert k < m;
        assert at[..m][k] == i;
      }
    }
    forall k | 0 <= k < m ensures at[k] < n {
      if !users[n].enabled { assert at[k] in at; }
    }
  }

  // How many users of a list have a hash.
  function HowMany(users: seq<User>, hash: string -> Digest, h: Digest): nat {
    if users == [] then 0
    else HowMany(users[..|users| - 1], hash, h) + if hash(users[|users| - 1].password) == h then 1 else 0
  }

  lemma HowManyWith(users: seq<User>, u: User, hash: string -> Digest, h: Digest)
    ensures HowMany(users + [u], hash, h) == HowMany(users, hash, h) + if hash(u.password) == h then 1 else 0
  {
    assert (users + [u])[..|users|] == users;
  }

  ghost predicate SomeEnabled(users: seq<User>, hash: string -> Digest, h: Digest) {
    exists i :: 0 <= i < |users| && users[i].enabled && hash(users[i].password) == h
  }

  lemma {:induction false} ServiceKnowsEnabled(users: seq<User>, hash: string -> Digest, h: Digest)
    requires forall i, k :: 0 <= i < k < |users| ==> hash(users[i].password) != hash(users[k].password)
    ensures HowMany(EnabledUsers(users), hash, h) == if SomeEnabled(users, hash, h) then 1 else 0
  {
    if users != [] {
      var n := |users| - 1;
      ServiceKnowsEnabled(users[..n], hash, h);
      var before := EnabledUsers(users[..n]);
      HowManyWith(before, users[n], hash, h);
      assert before + [] == before;
      SomeEnabledStep(users, hash, h);
    }
  }

  lemma SomeEnabledStep(users: seq<User>, hash: string -> Digest, h: Digest)
    requires users != []
    requires forall i, k :: 0 <= i < k < |users| ==> hash(users[i].password) != hash(users[k].password)
    ensures var n := |users| - 1; var last := users[n].enabled && hash(users[n].password) == h;
      && (SomeEnabled(users, hash, h) <==> last || SomeEnabled(users[..n], hash, h))
      && !(last && SomeEnabled(users[..n], hash, h))
  {
    var n := |users| - 1;
    assert forall i :: 0 <= i < n ==> users[..n][i] == users[i];
    if SomeEnabled(users[..n], hash, h) {
      var i :| 0 <= i < n && users[..n][i].enabled && hash(users[..n][i].password) == h;
      assert users[i].enabled && hash(users[i].password) == h;
    }
  }

  // The reason goes with the decision: none for AnyTLS, a disabled user for
  // Reject, and for Fallback too few bytes or an unknown hash.
  lemma ReasonsGoWithDecisions(known: map<Digest, bool>, preview: seq<byte>)
    ensures var (decision, reason) := Detect(known, preview);
      && (decision == AnyTls <==> reason == None)
      && (decision == Reject <==> reason == Some(DisabledUserHash))
      && (decision == Fallback <==> reason == Some(if |preview| < 32 then ShortPreview else UnknownUserHash))
      && (|preview| < 32 ==> decision == Fallback)
  {
  }

  // On a list that passed Validate the detector and the service agree.
  lemma DetectorAgreesWithService(users: seq<User>, hash: string -> Digest, preview: seq<byte>)
    requires ValidUsers(users, hash) && |preview| >= 32
    ensures var decision := Detect(DetectorMap(users, hash), preview).0;
      && (decision == AnyTls <==> HowMany(EnabledUsers(users), hash, preview[..32]) == 1)
      && (decision == Reject <==>
            exists i :: 0 <= i < |users| && hash(users[i].password) == preview[..32] && !users[i].enabled)
      && (decision == Fallback <==>
            forall i :: 0 <= i < |users| ==> hash(users[i].password) != preview[..32])
  {
    var h := preview[..32];
    LastUserWins(users, hash, h);
    ServiceKnowsEnabled(users, hash, h);
    if h in DetectorMap(users, hash) {
      var i :| 0 <= i < |users| && IsLast(users, hash, h, i) && users[i].enabled == DetectorMap(users, hash)[h];
      assert forall k :: 0 <= k < |users| && k != i ==> hash(users[k].password) != h;
    }
  }

  // Listing the same users in another order changes nothing.
  lemma UserOrderDoesNotMatter(users: seq<User>, other: seq<User>, hash: string -> Digest)
    requires ValidUsers(users, hash) && ValidUsers(other, hash)
    requires forall u :: u in users <==> u in other
    ensures DetectorMap(users, hash) == DetectorMap(other, hash)
  {
    var a, b := DetectorMap(users, hash), DetectorMap(other, hash);
    forall h: Digest
      ensures h in a <==> h in b
      ensures h in a && h in b ==> a[h] == b[h]
    {
      LastUserWins(users, hash, h);
      LastUserWins(other, hash, h);
      if h in a {
        var i :| 0 <= i < |users| && IsLast(users, hash, h, i) && users[i].enabled == a[h];
        assert users[i] in other;
        var k :| 0 <= k < |other| && other[k] == users[i];
      }
      if h in b {
        var i :| 0 <= i < |other| && IsLast(other, hash, h, i) && other[i].enabled == b[h];
        assert other[i] in users;
        var k :| 0 <= k < |users| && users[k] == other[i];
      }
    }
  }
}
