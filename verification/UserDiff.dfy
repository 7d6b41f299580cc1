/** The comparison of two user lists in node/user.go, whose keys are a uuid with the decimal speed limit
    written behind it. */
module UserDiff {
  import opened Panel

  const DIGITS := "0123456789"

  function Decimal(n: nat): (s: string)
    ensures s != [] && s[0] in DIGITS
  {
    if n < 10 then [DIGITS[n]] else Decimal(n / 10) + [DIGITS[n % 10]]
  }

  /** strconv.Itoa */
  function Itoa(n: int): string {
    if n < 0 then "-" + Decimal(-n) else Decimal(n)
  }

  /** The number a text of decimal digits stands for. */
  function Number(s: string): nat
    requires forall k :: 0 <= k < |s| ==> '0' <= s[k] <= '9'
  {
    if s == "" then 0 else 10 * Number(s[..|s| - 1]) + (s[|s| - 1] as int - '0' as int)
  }

  /** The text of a number is decimal, stands for it, and has no leading zero. */
  lemma {:induction false} DecimalReads(n: nat)
    ensures forall k :: 0 <= k < |Decimal(n)| ==> '0' <= Decimal(n)[k] <= '9'
    ensures Number(Decimal(n)) == n && (n > 0 ==> Decimal(n)[0] != '0')
  {
    assert forall k :: 0 <= k < 10 ==> DIGITS[k] as int == '0' as int + k;
    if n < 10 {
      assert Decimal(n)[..0] == "";
    } else {
      DecimalReads(n / 10);
      assert Decimal(n)[..|Decimal(n)| - 1] == Decimal(n / 10);
    }
  }

  /** A sign stands before the digits of a negative number only. */
  lemma ItoaReads(n: int)
    ensures if n < 0 then Itoa(n) == "-" + Decimal(-n) else Itoa(n) == Decimal(n)
  {
  }

  function Key(u: UserInfo): string {
    u.uuid + Itoa(u.speedLimit)
  }

  ghost function Keys(users: seq<UserInfo>): set<string> {
    set u | u in users :: Key(u)
  }

  /** The added users, in the order of the new list. */
  ghost function Added(old': seq<UserInfo>, new': seq<UserInfo>): seq<UserInfo> {
    if new' == [] then []
    else
      var rest, u := new'[..|new'| - 1], new'[|new'| - 1];
      Added(old', rest) + if Key(u) in Keys(old') && Key(u) !in Keys(rest) then [] else [u]
  }

  /** The entry the index of the old list leads to: the last user with his key. */
  ghost predicate Indexed(old': seq<UserInfo>, u: UserInfo) {
    exists i :: 0 <= i < |old'| && old'[i] == u && forall j :: i < j < |old'| ==> Key(old'[j]) != Key(u)
  }

  ghost predicate DistinctKeys(users: seq<UserInfo>) {
    forall i, j :: 0 <= i < j < |users| ==> Key(users[i]) != Key(users[j])
  }

  /** What the comparison returns; the deleted users come in any order. */
  ghost predicate Compared(old': seq<UserInfo>, new': seq<UserInfo>, deleted: seq<UserInfo>, added: seq<UserInfo>) {
    && added == Added(old', new')
    && DistinctKeys(deleted)
    && Keys(deleted) == Keys(old') - Keys(new')
    && forall u :: u in deleted ==> Indexed(old', u)
  }

  lemma KeysMore(users: seq<UserInfo>, u: UserInfo)
    ensures Keys(users + [u]) == Keys(users) + {Key(u)}
  {
    assert (users + [u])[|users|] == u;
    forall k | k in Keys(users) ensures k in Keys(users + [u]) {
      var v :| v in users && Key(v) == k;
      assert v in users + [u];
    }
  }

  /** The index of the first `n` users by key: the last position of every key in `keys`. */
  ghost predicate IsIndex(m: map<string, int>, users: seq<UserInfo>, n: nat, keys: set<string>)
    requires n <= |users|
  {
    && m.Keys == keys
    && (forall k :: k in m ==> 0 <= m[k] < n && Key(users[m[k]]) == k)
    && (forall k, j :: k in m && m[k] < j < n ==> Key(users[j]) != k)
  }

  lemma IndexMore(m: map<string, int>, users: seq<UserInfo>, n: nat)
    requires n < |users| && IsIndex(m, users, n, Keys(users[..n]))
    ensures IsIndex(m[Key(users[n]) := n], users, n + 1, Keys(users[..n + 1]))
  {
    hide Key;
    hide Keys;
    KeysMore(users[..n], users[n]);
    assert users[..n + 1] == users[..n] + [users[n]];
  }

  lemma AddedMore(old': seq<UserInfo>, new': seq<UserInfo>, j: nat)
    requires j < |new'|
    ensures Added(old', new'[..j + 1]) == Added(old', new'[..j]) +
              if Key(new'[j]) in Keys(old') && Key(new'[j]) !in Keys(new'[..j]) then [] else [new'[j]]
    ensures Keys(new'[..j + 1]) == Keys(new'[..j]) + {Key(new'[j])}
  {
    hide Key;
    hide Keys;
    KeysMore(new'[..j], new'[j]);
    assert new'[..j + 1] == new'[..j] + [new'[j]];
    assert new'[..j + 1][..j] == new'[..j];
  }

  lemma DeletedMore(old': seq<UserInfo>, m: map<string, int>, keys: set<string>, deleted: seq<UserInfo>, key: string)
    requires IsIndex(m, old', |old'|, keys) && key in m && key !in Keys(deleted)
    requires DistinctKeys(deleted) && forall u :: u in deleted ==> Indexed(old', u)
    ensures var deleted' := deleted + [old'[m[key]]];
            && DistinctKeys(deleted') && Keys(deleted') == Keys(deleted) + {key}
            && forall u :: u in deleted' ==> Indexed(old', u)
  {
    hide Key;
    var u := old'[m[key]];
    KeysMore(deleted, u);
    assert Indexed(old', u);
    forall i | 0 <= i < |deleted| ensures Key(deleted[i]) != key {
      assert Key(deleted[i]) in Keys(deleted);
    }
  }

  lemma IndexLess(m: map<string, int>, users: seq<UserInfo>, n: nat, keys: set<string>, key: string)
    requires n <= |users| && IsIndex(m, users, n, keys)
    ensures m.Keys == keys && forall k :: k in m ==> 0 <= m[k] < n
    ensures IsIndex(if key in m then m - {key} else m, users, n, keys - {key})
  {
    hide Key;
  }

  /** One new user: the round of the second loop. */
  lemma Round(m: map<string, int>, old': seq<UserInfo>, new': seq<UserInfo>, j: nat)
    requires j < |new'| && IsIndex(m, old', |old'|, Keys(old') - Keys(new'[..j]))
    ensures var key := Key(new'[j]);
            && IsIndex(if key in m then m - {key} else m, old', |old'|, Keys(old') - Keys(new'[..j + 1]))
            && Added(old', new'[..j + 1]) == if key in m then Added(old', new'[..j]) else Added(old', new'[..j]) + [new'[j]]
  {
    hide Key;
    hide Keys;
    hide Added;
    hide IsIndex;
    var key, keys := Key(new'[j]), Keys(old') - Keys(new'[..j]);
    AddedMore(old', new', j);
    IndexLess(m, old', |old'|, keys, key);
    assert Keys(old') - Keys(new'[..j + 1]) == keys - {key};
  }

  lemma EmptyIndex(users: seq<UserInfo>)
    ensures IsIndex(map[], users, 0, {})
  {
  }

  lemma Nothing(old': seq<UserInfo>, users: seq<UserInfo>)
    requires users == []
    ensures Keys(users) == {} && Added(old', users) == [] && DistinctKeys(users)
  {
  }

  method CompareUserList(old': seq<UserInfo>, new': seq<UserInfo>) returns (deleted: seq<UserInfo>, added: seq<UserInfo>)
    ensures Compared(old', new', deleted, added)
  {
    hide Key;
    hide Keys;
    hide Indexed;
    hide Added;
    hide DistinctKeys;
    hide IsIndex;
    var oldMap: map<string, int> := map[];
    Nothing(old', old'[..0]);
    EmptyIndex(old');
    for i := 0 to |old'|
      invariant IsIndex(oldMap, old', i, Keys(old'[..i]))
    {
      IndexMore(oldMap, old', i);
      oldMap := oldMap[Key(old'[i]) := i];
    }
    assert old'[..|old'|] == old';
    added := [];
    Nothing(old', new'[..0]);
    assert Keys(old') - Keys(new'[..0]) == Keys(old');
    for j := 0 to |new'|
      invariant added == Added(old', new'[..j])
      invariant IsIndex(oldMap, old', |old'|, Keys(old') - Keys(new'[..j]))
    {
      Round(oldMap, old', new', j);
      var key := Key(new'[j]);
      if key !in oldMap {
        added := added + [new'[j]];
      } else {
        oldMap := oldMap - {key};
      }
    }
    assert new'[..|new'|] == new';
    IndexLess(oldMap, old', |old'|, Keys(old') - Keys(new'), "");
    deleted := [];
    Nothing(old', deleted);
    var keys := oldMap.Keys;
    while keys != {}
      invariant keys <= oldMap.Keys
      invariant DistinctKeys(deleted)
      invariant Keys(deleted) == oldMap.Keys - keys
      invariant forall u :: u in deleted ==> Indexed(old', u)
      decreases |keys|
    {
      var key :| key in keys;
      DeletedMore(old', oldMap, oldMap.Keys, deleted, key);
      deleted := deleted + [old'[oldMap[key]]];
      keys := keys - {key};
    }
  }

  // ----- what the comparison is for -----

  type Pair = (string, int)

  function PairOf(u: UserInfo): Pair {
    (u.uuid, u.speedLimit)
  }

  ghost function PairsOf(users: seq<UserInfo>): set<Pair> {
    set u | u in users :: PairOf(u)
  }

  /** The users whose pair is not among `known`, in order. */
  ghost function NewTo(known: set<Pair>, users: seq<UserInfo>): seq<UserInfo> {
    if users == [] then []
    else
      var u := users[|users| - 1];
      NewTo(known, users[..|users| - 1]) + if PairOf(u) in known then [] else [u]
  }

  ghost predicate NoDuplicates(users: seq<UserInfo>) {
    forall i, j :: 0 <= i < j < |users| ==> users[i] != users[j]
  }

  /** Deleted are exactly the old users whose uuid and speed limit are no longer there, added exactly the
      new users whose uuid and speed limit were not there before. */
  ghost predicate Right(old': seq<UserInfo>, new': seq<UserInfo>, deleted: seq<UserInfo>, added: seq<UserInfo>) {
    && NoDuplicates(deleted)
    && (forall u :: u in deleted <==> u in old' && PairOf(u) !in PairsOf(new'))
    && added == NewTo(PairsOf(old'), new')
  }

  ghost predicate DistinctUuids(users: seq<UserInfo>) {
    forall i, j :: 0 <= i < j < |users| ==> users[i].uuid != users[j].uuid
  }

  /** No two old users share a key, and the first new user with the key of an old user is that user. */
  ghost predicate Unambiguous(old': seq<UserInfo>, new': seq<UserInfo>) {
    && DistinctKeys(old')
    && (forall i, j ::
          0 <= i < |old'| && 0 <= j < |new'| && Key(old'[i]) == Key(new'[j]) && Key(new'[j]) !in Keys(new'[..j])
          ==> PairOf(old'[i]) == PairOf(new'[j]))
  }

  lemma KeyOfPair(u: UserInfo, v: UserInfo)
    ensures PairOf(u) == PairOf(v) ==> Key(u) == Key(v)
  {
  }

  /** The same user of a list whose uuids differ. */
  lemma SameUser(users: seq<UserInfo>, u: UserInfo, v: UserInfo)
    requires DistinctUuids(users) && u in users && v in users && u.uuid == v.uuid
    ensures u == v
  {
  }

  /** A new user is added unless he is the first with the key of an old one. */
  lemma {:induction false} AddedAt(old': seq<UserInfo>, new': seq<UserInfo>, j: nat)
    requires DistinctUuids(new') && j < |new'|
    ensures new'[j] in Added(old', new') <==> !(Key(new'[j]) in Keys(old') && Key(new'[j]) !in Keys(new'[..j]))
    ensures forall u :: u in Added(old', new') ==> u in new'
  {
    hide Key;
    var n := |new'| - 1;
    var rest := new'[..n];
    if n > 0 {
      AddedAt(old', rest, if j < n then j else 0);
      assert rest[..j] == new'[..j] || j == n;
      assert forall u :: u in rest ==> u in new';
      assert new'[n] !in rest;
    } else {
      assert Added(old', rest) == [];
    }
    assert new'[..j] == rest || j < n;
  }

  lemma {:induction false} NewToHas(known: set<Pair>, users: seq<UserInfo>, u: UserInfo)
    ensures u in NewTo(known, users) <==> u in users && PairOf(u) !in known
  {
    if users == [] {
    } else {
      NewToHas(known, users[..|users| - 1], u);
      assert u in users <==> u in users[..|users| - 1] || u == users[|users| - 1];
    }
  }

  /** Lists filtered by conditions that agree are the same. */
  lemma {:induction false} AddedIsNewTo(old': seq<UserInfo>, new': seq<UserInfo>)
    requires forall j :: 0 <= j < |new'| ==>
               (Key(new'[j]) in Keys(old') && Key(new'[j]) !in Keys(new'[..j]) <==> PairOf(new'[j]) in PairsOf(old'))
    ensures Added(old', new') == NewTo(PairsOf(old'), new')
  {
    hide Key;
    if new' == [] {
    } else {
      var n := |new'| - 1;
      var rest := new'[..n];
      forall j | 0 <= j < n
        ensures Key(rest[j]) in Keys(old') && Key(rest[j]) !in Keys(rest[..j]) <==> PairOf(rest[j]) in PairsOf(old')
      {
        assert rest[..j] == new'[..j] && rest[j] == new'[j];
      }
      AddedIsNewTo(old', rest);
      assert new'[..n] == rest;
    }
  }

  /** The first user of a list with a key. */
  lemma {:induction false} FirstWith(users: seq<UserInfo>, k: string) returns (j: nat)
    requires k in Keys(users)
    ensures j < |users| && Key(users[j]) == k && k !in Keys(users[..j])
  {
    hide Key;
    var n := |users| - 1;
    var rest := users[..n];
    if k in Keys(rest) {
      j := FirstWith(rest, k);
      assert rest[..j] == users[..j];
    } else {
      j := n;
      var u :| u in users && Key(u) == k;
      if u != users[n] {
        assert u in rest;
      }
    }
  }

  /** A list has the keys of its users. */
  lemma HasKey(users: seq<UserInfo>, u: UserInfo)
    ensures u in users ==> Key(u) in Keys(users)
  {
  }

  lemma NoPairWithoutKey(users: seq<UserInfo>, u: UserInfo)
    requires Key(u) !in Keys(users)
    ensures PairOf(u) !in PairsOf(users)
  {
    forall v | v in users ensures PairOf(v) != PairOf(u) {
      KeyOfPair(u, v);
      assert Key(v) in Keys(users);
    }
  }

  lemma DeletedIsRight(old': seq<UserInfo>, new': seq<UserInfo>, deleted: seq<UserInfo>, added: seq<UserInfo>, u: UserInfo)
    requires Compared(old', new', deleted, added) && Unambiguous(old', new')
    ensures u in deleted <==> u in old' && PairOf(u) !in PairsOf(new')
  {
    hide Key;
    hide PairOf;
    if u in deleted {
      HasKey(deleted, u);
      NoPairWithoutKey(new', u);
    }
    if u in old' && PairOf(u) !in PairsOf(new') {
      HasKey(old', u);
      if Key(u) in Keys(new') {
        var j := FirstWith(new', Key(u));
        assert false;
      }
      assert Key(u) in Keys(deleted);
      var d :| d in deleted && Key(d) == Key(u);
      assert d == u;
    }
  }

  lemma AddedIsRight(old': seq<UserInfo>, new': seq<UserInfo>, j: nat)
    requires DistinctUuids(new') && Unambiguous(old', new') && j < |new'|
    ensures Key(new'[j]) in Keys(old') && Key(new'[j]) !in Keys(new'[..j]) <==> PairOf(new'[j]) in PairsOf(old')
  {
    hide Key;
    var v := new'[j];
    if Key(v) in Keys(old') && Key(v) !in Keys(new'[..j]) {
      var u :| u in old' && Key(u) == Key(v);
      assert PairOf(u) == PairOf(v);
    }
    if PairOf(v) in PairsOf(old') {
      var u :| u in old' && PairOf(u) == PairOf(v);
      KeyOfPair(u, v);
      HasKey(old', u);
      if Key(v) in Keys(new'[..j]) {
        var f := FirstWith(new'[..j], Key(v));
        assert false;
      }
    }
  }

  lemma RightWhenUnambiguous(old': seq<UserInfo>, new': seq<UserInfo>, deleted: seq<UserInfo>, added: seq<UserInfo>)
    requires DistinctUuids(old') && DistinctUuids(new') && Compared(old', new', deleted, added)
    requires Unambiguous(old', new')
    ensures Right(old', new', deleted, added)
  {
    hide Key;
    forall u ensures u in deleted <==> u in old' && PairOf(u) !in PairsOf(new') {
      DeletedIsRight(old', new', deleted, added, u);
    }
    forall j: nat | j < |new'|
      ensures Key(new'[j]) in Keys(old') && Key(new'[j]) !in Keys(new'[..j]) <==> PairOf(new'[j]) in PairsOf(old')
    {
      AddedIsRight(old', new', j);
    }
    AddedIsNewTo(old', new');
  }

  lemma HasKeyBefore(users: seq<UserInfo>, m: nat, j: nat)
    requires m < |users| && j <= |users|
    ensures m < j ==> Key(users[m]) in Keys(users[..j])
  {
    if m < j {
      assert users[..j][m] == users[m];
    }
  }

  lemma FirstIsSame(old': seq<UserInfo>, new': seq<UserInfo>, deleted: seq<UserInfo>, added: seq<UserInfo>, i: nat, j: nat)
    requires DistinctUuids(old') && DistinctUuids(new') && Compared(old', new', deleted, added)
    requires Right(old', new', deleted, added)
    requires i < |old'| && j < |new'| && Key(old'[i]) == Key(new'[j]) && Key(new'[j]) !in Keys(new'[..j])
    ensures PairOf(old'[i]) == PairOf(new'[j])
  {
    hide Key;
    var u, v := old'[i], new'[j];
    assert Key(u) in Keys(old') && Key(v) in Keys(new');
    AddedAt(old', new', j);
    NewToHas(PairsOf(old'), new', v);
    assert PairOf(v) in PairsOf(old');
    if PairOf(u) != PairOf(v) {
      HasKey(deleted, u);
      assert PairOf(u) in PairsOf(new');
      var m :| 0 <= m < |new'| && PairOf(new'[m]) == PairOf(u);
      KeyOfPair(u, new'[m]);
      HasKeyBefore(new', m, j);
      HasKeyBefore(new', j, m);
      AddedAt(old', new', m);
      NewToHas(PairsOf(old'), new', new'[m]);
      assert false;
    }
  }

  lemma OldKeysDiffer(old': seq<UserInfo>, new': seq<UserInfo>, deleted: seq<UserInfo>, added: seq<UserInfo>, i: nat, j: nat)
    requires DistinctUuids(old') && DistinctUuids(new') && Compared(old', new', deleted, added)
    requires Right(old', new', deleted, added) && i < j < |old'|
    ensures Key(old'[i]) != Key(old'[j])
  {
    hide Key;
    var u, v := old'[i], old'[j];
    if Key(u) in Keys(new') {
      var f := FirstWith(new', Key(u));
      FirstIsSame(old', new', deleted, added, i, f);
      if Key(v) == Key(u) {
        FirstIsSame(old', new', deleted, added, j, f);
      }
    } else {
      NoPairWithoutKey(new', u);
      if Key(v) !in Keys(new') {
        NoPairWithoutKey(new', v);
      }
    }
  }

  lemma UnambiguousWhenRight(old': seq<UserInfo>, new': seq<UserInfo>, deleted: seq<UserInfo>, added: seq<UserInfo>)
    requires DistinctUuids(old') && DistinctUuids(new') && Compared(old', new', deleted, added)
    requires Right(old', new', deleted, added)
    ensures Unambiguous(old', new')
  {
    hide Key;
    forall i, j | 0 <= i < |old'| && 0 <= j < |new'| && Key(old'[i]) == Key(new'[j]) && Key(new'[j]) !in Keys(new'[..j])
      ensures PairOf(old'[i]) == PairOf(new'[j])
    {
      FirstIsSame(old', new', deleted, added, i, j);
    }
    forall i: nat, j: nat | i < j < |old'| ensures Key(old'[i]) != Key(old'[j]) {
      OldKeysDiffer(old', new', deleted, added, i, j);
    }
  }

  /** For lists without repeated uuids the comparison is right exactly when no keys run into each
      other. */
  lemma DiffIsRightWhen(old': seq<UserInfo>, new': seq<UserInfo>, deleted: seq<UserInfo>, added: seq<UserInfo>)
    requires DistinctUuids(old') && DistinctUuids(new') && Compared(old', new', deleted, added)
    ensures Right(old', new', deleted, added) <==> Unambiguous(old', new')
  {
    if Right(old', new', deleted, added) {
      UnambiguousWhenRight(old', new', deleted, added);
    }
    if Unambiguous(old', new') {
      RightWhenUnambiguous(old', new', deleted, added);
    }
  }

  // ----- keys -----

  lemma {:induction false} DecimalInjective(m: nat, n: nat)
    requires Decimal(m) == Decimal(n)
    ensures m == n
  {
    var a, b := Decimal(m), Decimal(n);
    assert a[|a| - 1] == DIGITS[m % 10] && b[|b| - 1] == DIGITS[n % 10];
    assert m % 10 == n % 10;
    if m >= 10 && n >= 10 {
      assert Decimal(m / 10) == a[..|a| - 1] && Decimal(n / 10) == b[..|b| - 1];
      DecimalInjective(m / 10, n / 10);
    }
  }

  lemma ItoaInjective(m: int, n: int)
    requires Itoa(m) == Itoa(n)
    ensures m == n
  {
    hide Decimal;
    assert '-' !in DIGITS;
    if m < 0 && n < 0 {
      assert Decimal(-m) == Itoa(m)[1..] && Decimal(-n) == Itoa(n)[1..];
      DecimalInjective(-m, -n);
    } else if m >= 0 && n >= 0 {
      DecimalInjective(m, n);
    }
  }

  /** All uuids of the two lists have the same length. */
  ghost predicate FixedLength(old': seq<UserInfo>, new': seq<UserInfo>) {
    forall u, v :: u in old' + new' && v in old' + new' ==> |u.uuid| == |v.uuid|
  }

  lemma SameKeySamePair(u: UserInfo, v: UserInfo)
    requires |u.uuid| == |v.uuid| && Key(u) == Key(v)
    ensures PairOf(u) == PairOf(v)
  {
    var n := |u.uuid|;
    assert u.uuid == Key(u)[..n] && v.uuid == Key(v)[..n];
    assert Itoa(u.speedLimit) == Key(u)[n..] && Itoa(v.speedLimit) == Key(v)[n..];
    ItoaInjective(u.speedLimit, v.speedLimit);
  }

  /** With uuids of one length no keys run into each other. */
  lemma FixedLengthIsUnambiguous(old': seq<UserInfo>, new': seq<UserInfo>)
    requires DistinctUuids(old') && FixedLength(old', new')
    ensures Unambiguous(old', new')
  {
    hide Key;
    forall i, j | 0 <= i < |old'| && 0 <= j < |new'| && Key(old'[i]) == Key(new'[j])
      ensures PairOf(old'[i]) == PairOf(new'[j])
    {
      assert old'[i] in old' + new' && new'[j] in old' + new';
      SameKeySamePair(old'[i], new'[j]);
    }
    forall i, j | 0 <= i < j < |old'| ensures Key(old'[i]) != Key(old'[j]) {
      if Key(old'[i]) == Key(old'[j]) {
        assert old'[i] in old' + new' && old'[j] in old' + new';
        SameKeySamePair(old'[i], old'[j]);
      }
    }
  }

  lemma NoKeysNoUsers(users: seq<UserInfo>)
    ensures users != [] ==> Keys(users) != {}
  {
    if users != [] {
      assert Key(users[0]) in Keys(users);
    }
  }

  /** A user "a" with limit 12 looks like a user "a1" with limit 2: neither is reported as a change. */
  lemma KeysCanRunIntoEachOther(deleted: seq<UserInfo>, added: seq<UserInfo>)
    requires Compared([UserInfo(1, "a", 12, 0)], [UserInfo(2, "a1", 2, 0)], deleted, added)
    ensures deleted == [] && added == []
    ensures !Right([UserInfo(1, "a", 12, 0)], [UserInfo(2, "a1", 2, 0)], deleted, added)
  {
    var u, v := UserInfo(1, "a", 12, 0), UserInfo(2, "a1", 2, 0);
    assert Decimal(12) == "12" && Decimal(2) == "2";
    assert Key(u) == "a12" == Key(v);
    assert u in [u] && v in [v];
    assert Keys([u]) == {"a12"} == Keys([v]);
    NoKeysNoUsers(deleted);
    NewToHas(PairsOf([u]), [v], v);
    assert [v][..0] == [] && Keys([v][..0]) == {};
    assert Added([u], [v]) == Added([u], []) == [];
  }

  /** Taking the deleted pairs away from the old ones and adding the added ones gives the new ones, also
      for a user who is in both lists with different limits. */
  lemma DiffApplies(old': seq<UserInfo>, new': seq<UserInfo>, deleted: seq<UserInfo>, added: seq<UserInfo>)
    requires Right(old', new', deleted, added)
    ensures PairsOf(old') - PairsOf(deleted) + PairsOf(added) == PairsOf(new')
  {
    forall p: Pair ensures p in PairsOf(old') - PairsOf(deleted) + PairsOf(added) <==> p in PairsOf(new') {
      if p in PairsOf(new') {
        var v :| v in new' && PairOf(v) == p;
        NewToHas(PairsOf(old'), new', v);
      }
      if p in PairsOf(added) {
        var v :| v in added && PairOf(v) == p;
        NewToHas(PairsOf(old'), new', v);
      }
    }
  }
}
