/** The credential store: entries by id, an index from names to ids, and the
    file both are rebuilt from (gui/credential_store.py). */
module CredentialStore {
  import opened Prelude
  import opened Text

  /** Symbolic encryption: a token opens under the key it was sealed with. */
  datatype Token = Sealed(key: int, plain: string, nonce: int)

  function Decrypt(key: int, t: Token): Option<string> {
    if t.key == key then Some(t.plain) else None
  }

  datatype Entry = Entry(name: string, kind: string, token: Token, description: string, created: string, updated: string)

  datatype Store = Store(credentials: map<string, Entry>, index: map<string, string>)

  const EMPTY := Store(map[], map[])

  /** What a caller sees of a credential. */
  datatype Secret = Secret(kind: string, value: string, description: string, created: string, updated: string)

  // ---- Operations ----------------------------------------------------------

  predicate Known(s: Store, name: string) {
    name in s.index && s.index[name] in s.credentials
  }

  /** The test in add also takes an empty id for no id. */
  predicate Taken(s: Store, name: string) {
    Known(s, name) && s.index[name] != ""
  }

  /** A taken name is left as it is. */
  function Added(s: Store, name: string, cid: string, e: Entry): Store {
    if Taken(s, name) then s
    else Store(s.credentials[cid := e], s.index[name := cid])
  }

  function Edited(e: Entry, token: Token, description: Option<string>, now: string): Entry {
    e.(token := token, description := if description.Some? then description.value else e.description, updated := now)
  }

  /** An unknown name is a KeyError and changes nothing. */
  function Updated(s: Store, name: string, token: Token, description: Option<string>, now: string): Store {
    if !Known(s, name) then s
    else s.(credentials := s.credentials[s.index[name] := Edited(s.credentials[s.index[name]], token, description, now)])
  }

  function Deleted(s: Store, name: string): Store {
    if !Known(s, name) then s else Store(s.credentials - {s.index[name]}, s.index - {name})
  }

  datatype Lookup = Absent | Found(secret: Secret) | Raised

  /** The handler for a token that does not open names a module that was never
      imported, so the lookup itself raises. */
  function Get(s: Store, key: int, name: string): Lookup {
    if !Known(s, name) then Absent
    else
      var e := s.credentials[s.index[name]];
      match Decrypt(key, e.token)
      case None => Raised
      case Some(v) => Found(Secret(e.kind, v, e.description, e.created, e.updated))
  }

  // ---- The index is the inverse of the names -------------------------------

  predicate Inverse(s: Store) {
    && (forall n :: n in s.index ==> s.index[n] in s.credentials && s.credentials[s.index[n]].name == n)
    && (forall c :: c in s.credentials ==> s.credentials[c].name in s.index && s.index[s.credentials[c].name] == c)
  }

  predicate Sealed(s: Store, key: int) {
    forall c :: c in s.credentials ==> s.credentials[c].token.key == key
  }

  /** Adding keeps the index exact precisely when the name is taken, or a new
      name gets an id not in use, or an indexed one gets its own id again. */
  lemma AddKeepsInverse(s: Store, name: string, cid: string, e: Entry)
    requires Inverse(s) && e.name == name
    ensures Inverse(Added(s, name, cid, e)) <==>
            if name in s.index then s.index[name] != "" || cid == "" else cid !in s.credentials
  {
    var t := Added(s, name, cid, e);
    if !Taken(s, name) && name in s.index && cid != s.index[name] {
      var orphan := s.index[name];
      assert orphan in t.credentials && t.credentials[orphan].name == name && t.index[name] == cid;
    } else if name !in s.index && cid in s.credentials {
      var hidden := s.credentials[cid].name;
      assert hidden in t.index && t.index[hidden] == cid && t.credentials[cid].name == name;
      assert hidden != name;
    }
  }

  // ---- Runs against the simple specification -------------------------------

  datatype Op =
    | Add(name: string, kind: string, value: string, description: string, cid: string, nonce: int, now: string)
    | Update(name: string, value: string, newDescription: Option<string>, nonce: int, now: string)
    | Delete(name: string)
    | ClearAll(confirmed: bool)

  function NewEntry(key: int, op: Op): Entry
    requires op.Add?
  {
    Entry(op.name, op.kind, Token.Sealed(key, op.value, op.nonce), op.description, op.now, op.now)
  }

  function Next(s: Store, key: int, op: Op): Store {
    match op
    case Add(name, _, _, _, cid, _, _) => Added(s, name, cid, NewEntry(key, op))
    case Update(name, value, d, nonce, now) => Updated(s, name, Token.Sealed(key, value, nonce), d, now)
    case Delete(name) => Deleted(s, name)
    case ClearAll(confirmed) => if confirmed then EMPTY else s
  }

  function Run(key: int, ops: seq<Op>): Store {
    if ops == [] then EMPTY else Next(Run(key, ops[..|ops| - 1]), key, ops[|ops| - 1])
  }

  /** The specification: a map from names to secrets. */
  function SpecNext(m: map<string, Secret>, op: Op): map<string, Secret> {
    match op
    case Add(name, kind, value, d, _, _, now) => if name in m then m else m[name := Secret(kind, value, d, now, now)]
    case Update(name, value, d, _, now) =>
      if name !in m then m
      else m[name := m[name].(value := value, updated := now, description := if d.Some? then d.value else m[name].description)]
    case Delete(name) => m - {name}
    case ClearAll(confirmed) => if confirmed then map[] else m
  }

  function SpecRun(ops: seq<Op>): map<string, Secret> {
    if ops == [] then map[] else SpecNext(SpecRun(ops[..|ops| - 1]), ops[|ops| - 1])
  }

  /** Each newly stored credential gets an id that is not empty and not in use. */
  predicate FreshIds(key: int, ops: seq<Op>) {
    ops == [] ||
    (var init, last := ops[..|ops| - 1], ops[|ops| - 1];
     FreshIds(key, init)
     && (last.Add? && !Taken(Run(key, init), last.name) ==> last.cid != "" && last.cid !in Run(key, init).credentials))
  }

  /** Every lookup answers what the specification map holds. */
  predicate Refines(s: Store, key: int, m: map<string, Secret>) {
    && s.index.Keys == m.Keys
    && forall n :: n in m ==> Get(s, key, n) == Found(m[n])
  }

  lemma AddStep(s: Store, key: int, m: map<string, Secret>, op: Op)
    requires op.Add? && Inverse(s) && Sealed(s, key) && Refines(s, key, m) && "" !in s.credentials
    requires !Taken(s, op.name) ==> op.cid != "" && op.cid !in s.credentials
    ensures var t := Next(s, key, op);
            Inverse(t) && Sealed(t, key) && Refines(t, key, SpecNext(m, op)) && "" !in t.credentials
  {
    AddKeepsInverse(s, op.name, op.cid, NewEntry(key, op));
    var t, k := Next(s, key, op), SpecNext(m, op);
    forall n | n in k ensures Get(t, key, n) == Found(k[n]) {
      if n != op.name {
        assert Get(s, key, n) == Found(m[n]);
      }
    }
  }

  /** Another name has another id, so its lookup sees none of this. */
  lemma OthersKeepTheirs(s: Store, key: int, name: string, n: string)
    requires Inverse(s) && Known(s, name) && n != name && Known(s, n)
    ensures s.index[n] != s.index[name]
    ensures Get(Deleted(s, name), key, n) == Get(s, key, n)
    ensures forall token, d, now :: Get(Updated(s, name, token, d, now), key, n) == Get(s, key, n)
  {
  }

  lemma UpdateStep(s: Store, key: int, m: map<string, Secret>, op: Op)
    requires op.Update? && Inverse(s) && Sealed(s, key) && Refines(s, key, m)
    ensures var t := Next(s, key, op); Inverse(t) && Sealed(t, key) && Refines(t, key, SpecNext(m, op))
  {
    var t, k := Next(s, key, op), SpecNext(m, op);
    if Known(s, op.name) {
      assert t.index == s.index && t.credentials.Keys == s.credentials.Keys;
      assert Get(s, key, op.name) == Found(m[op.name]);
    }
    forall n | n in k ensures Get(t, key, n) == Found(k[n]) {
      assert Get(s, key, n) == Found(m[n]);
      if n != op.name && Known(s, op.name) {
        OthersKeepTheirs(s, key, op.name, n);
      }
    }
  }

  lemma DeleteStep(s: Store, key: int, m: map<string, Secret>, op: Op)
    requires op.Delete? && Inverse(s) && Sealed(s, key) && Refines(s, key, m)
    ensures var t := Next(s, key, op); Inverse(t) && Sealed(t, key) && Refines(t, key, SpecNext(m, op))
  {
    var t, k := Next(s, key, op), SpecNext(m, op);
    forall n | n in k ensures Get(t, key, n) == Found(k[n]) {
      assert Get(s, key, n) == Found(m[n]);
      if Known(s, op.name) {
        OthersKeepTheirs(s, key, op.name, n);
      }
    }
  }

  lemma StepRefines(s: Store, key: int, m: map<string, Secret>, op: Op)
    requires Inverse(s) && Sealed(s, key) && Refines(s, key, m) && "" !in s.credentials
    requires op.Add? && !Taken(s, op.name) ==> op.cid != "" && op.cid !in s.credentials
    ensures var t := Next(s, key, op);
            Inverse(t) && Sealed(t, key) && Refines(t, key, SpecNext(m, op)) && "" !in t.credentials
  {
    match op
    case Add(_, _, _, _, _, _, _) => AddStep(s, key, m, op);
    case Update(_, _, _, _, _) => UpdateStep(s, key, m, op);
    case Delete(_) => DeleteStep(s, key, m, op);
    case ClearAll(_) =>
  }

  /** Over every run the index is exact and the store behaves as the map. */
  lemma {:induction false} RunRefines(key: int, ops: seq<Op>)
    requires FreshIds(key, ops)
    ensures Inverse(Run(key, ops)) && Sealed(Run(key, ops), key) && "" !in Run(key, ops).credentials
    ensures Refines(Run(key, ops), key, SpecRun(ops))
  {
    if ops != [] {
      var init, last := ops[..|ops| - 1], ops[|ops| - 1];
      RunRefines(key, init);
      StepRefines(Run(key, init), key, SpecRun(init), last);
    }
  }

  /** A store opened under another key answers the same only for names it does
      not hold; for every name it holds the lookup raises. */
  lemma LookupUnderKey(key: int, ops: seq<Op>, other: int, name: string)
    requires FreshIds(key, ops)
    ensures var m := SpecRun(ops);
            Get(Run(key, ops), other, name) ==
            if name !in m then Absent else if other == key then Found(m[name]) else Raised
  {
    RunRefines(key, ops);
    if name in SpecRun(ops) {
      assert Get(Run(key, ops), key, name) == Found(SpecRun(ops)[name]);
    }
  }

  /** No lookup raises exactly when the key is the one the store was filled
      under, or the store is empty. */
  lemma LookupsAnswer(key: int, ops: seq<Op>, other: int)
    requires FreshIds(key, ops)
    ensures (forall name :: !Get(Run(key, ops), other, name).Raised?) <==> other == key || SpecRun(ops) == map[]
  {
    if other == key || SpecRun(ops) == map[] {
      forall name ensures !Get(Run(key, ops), other, name).Raised? {
        LookupUnderKey(key, ops, other, name);
      }
    } else {
      var name :| name in SpecRun(ops);
      LookupUnderKey(key, ops, other, name);
      assert Get(Run(key, ops), other, name).Raised?;
    }
  }

  /** Adding under a name is documented to update its value; it takes effect
      exactly when the name is new or has that value already. */
  lemma AddTakesEffect(key: int, ops: seq<Op>, op: Op)
    requires op.Add? && FreshIds(key, ops + [op])
    ensures var got, m := Get(Run(key, ops + [op]), key, op.name), SpecRun(ops);
            got.Found? && (got.secret.value == op.value <==> op.name !in m || m[op.name].value == op.value)
  {
    assert (ops + [op])[..|ops|] == ops;
    LookupUnderKey(key, ops + [op], key, op.name);
  }

  // ---- Generated ids -------------------------------------------------------

  /** The id add makes from the clock and the number of credentials. */
  function Cid(clock: string, count: nat): string {
    "cred_" + clock + "_" + Decimal(count)
  }

  /** A decimal fraction: no underscore in it. */
  predicate Clock(c: string) {
    '_' !in c
  }

  lemma FirstUnderscore(r: string, clock: string, rest: string)
    requires Clock(clock) && r == clock + "_" + rest
    ensures |clock| < |r| && r[|clock|] == '_' && r[..|clock|] == clock && r[|clock| + 1..] == rest
    ensures forall i :: 0 <= i < |clock| ==> r[i] != '_'
  {
    forall i | 0 <= i < |clock| ensures r[i] != '_' {
      assert r[i] == clock[i] && clock[i] in clock;
    }
  }

  lemma CidTail(clock: string, count: nat)
    ensures Cid(clock, count)[5..] == clock + "_" + Decimal(count)
  {
  }

  lemma CidClock(a: string, m: nat, b: string, n: nat)
    requires Clock(a) && Clock(b) && Cid(a, m) == Cid(b, n)
    ensures a == b && m == n
  {
    var r := Cid(a, m)[5..];
    CidTail(a, m);
    CidTail(b, n);
    FirstUnderscore(r, a, Decimal(m));
    FirstUnderscore(r, b, Decimal(n));
    assert |a| == |b|;
    NumberOfDecimal(m);
    NumberOfDecimal(n);
  }

  /** clocks[i] is what the clock said at operation i. */
  predicate Generated(key: int, ops: seq<Op>, clocks: seq<string>) {
    && |clocks| == |ops|
    && forall i :: 0 <= i < |ops| && ops[i].Add? ==>
         Clock(clocks[i]) && ops[i].cid == Cid(clocks[i], |Run(key, ops[..i]).credentials|)
  }

  predicate Ticking(ops: seq<Op>, clocks: seq<string>)
    requires |clocks| == |ops|
  {
    forall i, j :: 0 <= i < j < |ops| && ops[i].Add? && ops[j].Add? ==> clocks[i] != clocks[j]
  }

  lemma {:induction false} IdSource(key: int, ops: seq<Op>, c: string) returns (i: nat)
    requires c in Run(key, ops).credentials
    ensures i < |ops| && ops[i].Add? && ops[i].cid == c
  {
    var init, last := ops[..|ops| - 1], ops[|ops| - 1];
    if c in Run(key, init).credentials {
      i := IdSource(key, init, c);
    } else {
      i := |ops| - 1;
    }
  }

  lemma GeneratedPrefix(key: int, ops: seq<Op>, clocks: seq<string>)
    requires ops != [] && Generated(key, ops, clocks)
    ensures Generated(key, ops[..|ops| - 1], clocks[..|ops| - 1])
  {
    var init := ops[..|ops| - 1];
    forall i | 0 <= i < |init| && init[i].Add?
      ensures Clock(clocks[i]) && init[i].cid == Cid(clocks[i], |Run(key, init[..i]).credentials|)
    {
      assert init[..i] == ops[..i];
    }
  }

  /** As long as the clock moves between two adds, the ids made are fresh. */
  lemma {:induction false} TickingGivesFreshIds(key: int, ops: seq<Op>, clocks: seq<string>)
    requires Generated(key, ops, clocks) && Ticking(ops, clocks)
    ensures FreshIds(key, ops)
  {
    if ops != [] {
      var n := |ops| - 1;
      GeneratedPrefix(key, ops, clocks);
      TickingGivesFreshIds(key, ops[..n], clocks[..n]);
      if ops[n].Add? && ops[n].cid in Run(key, ops[..n]).credentials {
        var i := IdSource(key, ops[..n], ops[n].cid);
        CidClock(clocks[i], |Run(key, ops[..i]).credentials|, clocks[n], |Run(key, ops[..n]).credentials|);
        assert false;
      }
    }
  }

  // ---- Runs that show it ---------------------------------------------------

  lemma RunSnoc(key: int, ops: seq<Op>, op: Op)
    ensures Run(key, ops + [op]) == Next(Run(key, ops), key, op)
  {
    assert (ops + [op])[..|ops|] == ops;
  }

  const ADD_X := Add("x", "api_key", "xs", "", Cid("1.0", 0), 0, "")
  const ADD_X_AGAIN := Add("x", "api_key", "new", "", Cid("2.0", 1), 0, "")
  const ADD_Y := Add("y", "api_key", "ys", "", Cid("2.0", 1), 0, "")
  const ADD_Z := Add("z", "api_key", "zs", "", Cid("2.0", 1), 0, "")

  /** A second add under one name: the lookup still answers with the first value. */
  lemma OldValueStays()
    ensures Get(Run(1, [ADD_X, ADD_X_AGAIN]), 1, "x") == Found(Secret("api_key", "xs", "", "", ""))
  {
    RunSnoc(1, [], ADD_X);
    assert [] + [ADD_X] == [ADD_X] && [ADD_X] + [ADD_X_AGAIN] == [ADD_X, ADD_X_AGAIN];
    RunSnoc(1, [ADD_X], ADD_X_AGAIN);
    assert ADD_X.cid != "";
  }

  /** A store of one credential, opened under another key. */
  lemma WrongKeyWitness()
    ensures Get(Run(1, [ADD_X]), 2, "x") == Raised
  {
    RunSnoc(1, [], ADD_X);
    assert [] + [ADD_X] == [ADD_X];
  }

  lemma GeneratedSnoc(key: int, ops: seq<Op>, clocks: seq<string>, op: Op, clock: string)
    requires Generated(key, ops, clocks)
    requires op.Add? ==> Clock(clock) && op.cid == Cid(clock, |Run(key, ops).credentials|)
    ensures Generated(key, ops + [op], clocks + [clock])
  {
    var all := ops + [op];
    assert all[..|ops|] == ops;
    forall i | 0 <= i < |ops| ensures all[..i] == ops[..i] {
    }
  }

  lemma TwoAdds()
    ensures Generated(1, [ADD_X, ADD_Y], ["1.0", "2.0"]) && ADD_X.cid != ADD_Y.cid
    ensures var x, y := NewEntry(1, ADD_X), NewEntry(1, ADD_Y);
            Run(1, [ADD_X, ADD_Y]) == Store(map[ADD_X.cid := x, ADD_Y.cid := y], map["x" := ADD_X.cid, "y" := ADD_Y.cid])
  {
    assert [] + [ADD_X] == [ADD_X] && [ADD_X] + [ADD_Y] == [ADD_X, ADD_Y];
    assert [] + ["1.0"] == ["1.0"] && ["1.0"] + ["2.0"] == ["1.0", "2.0"];
    RunSnoc(1, [], ADD_X);
    GeneratedSnoc(1, [], [], ADD_X, "1.0");
    RunSnoc(1, [ADD_X], ADD_Y);
    GeneratedSnoc(1, [ADD_X], ["1.0"], ADD_Y, "2.0");
    if ADD_X.cid == ADD_Y.cid {
      CidClock("1.0", 0, "2.0", 1);
    }
  }

  lemma DeleteOneOfTwo(x: string, a: string, e: Entry, y: string, b: string, f: Entry)
    requires a != b && x != y
    ensures Deleted(Store(map[a := e, b := f], map[x := a, y := b]), x) == Store(map[b := f], map[y := b])
  {
    assert map[a := e, b := f] - {a} == map[b := f];
    assert map[x := a, y := b] - {x} == map[y := b];
  }

  lemma ThenDelete()
    ensures Generated(1, [ADD_X, ADD_Y, Delete("x")], ["1.0", "2.0", ""])
    ensures Run(1, [ADD_X, ADD_Y, Delete("x")]) == Store(map[ADD_Y.cid := NewEntry(1, ADD_Y)], map["y" := ADD_Y.cid])
  {
    TwoAdds();
    assert [ADD_X, ADD_Y] + [Delete("x")] == [ADD_X, ADD_Y, Delete("x")];
    assert ["1.0", "2.0"] + [""] == ["1.0", "2.0", ""];
    RunSnoc(1, [ADD_X, ADD_Y], Delete("x"));
    GeneratedSnoc(1, [ADD_X, ADD_Y], ["1.0", "2.0"], Delete("x"), "");
    DeleteOneOfTwo("x", ADD_X.cid, NewEntry(1, ADD_X), "y", ADD_Y.cid, NewEntry(1, ADD_Y));
  }

  /** Two adds in one tick with a delete between them: the lookup of y answers
      with the credential of z. */
  lemma IdClash()
    ensures var ops := [ADD_X, ADD_Y, Delete("x"), ADD_Z];
            && Generated(1, ops, ["1.0", "2.0", "", "2.0"])
            && !Inverse(Run(1, ops))
            && Get(Run(1, ops), 1, "y") == Found(Secret("api_key", "zs", "", "", ""))
  {
    var three := [ADD_X, ADD_Y, Delete("x")];
    ThenDelete();
    assert three + [ADD_Z] == [ADD_X, ADD_Y, Delete("x"), ADD_Z];
    assert ["1.0", "2.0", ""] + ["2.0"] == ["1.0", "2.0", "", "2.0"];
    RunSnoc(1, three, ADD_Z);
    GeneratedSnoc(1, three, ["1.0", "2.0", ""], ADD_Z, "2.0");
    var t := Added(Run(1, three), "z", ADD_Z.cid, NewEntry(1, ADD_Z));
    assert t.index["y"] == ADD_Y.cid && t.credentials[ADD_Y.cid] == NewEntry(1, ADD_Z);
  }

  // ---- Saving and loading --------------------------------------------------

  /** The JSON object in its order; its keys are distinct. */
  type Items = seq<(string, Entry)>

  function Credentials(items: Items): map<string, Entry> {
    if items == [] then map[] else Credentials(items[..|items| - 1])[items[|items| - 1].0 := items[|items| - 1].1]
  }

  /** The index rebuilt in file order: a later entry of the same name wins. */
  function Index(items: Items): map<string, string> {
    if items == [] then map[] else Index(items[..|items| - 1])[items[|items| - 1].1.name := items[|items| - 1].0]
  }

  function Loaded(items: Items): Store {
    Store(Credentials(items), Index(items))
  }

  /** items lists m, each key once. */
  predicate Lists(items: Items, m: map<string, Entry>) {
    && DistinctIds(items)
    && (forall i :: 0 <= i < |items| ==> items[i].0 in m && m[items[i].0] == items[i].1)
    && (forall c :: c in m ==> exists i :: 0 <= i < |items| && items[i].0 == c)
  }

  predicate DistinctIds(items: Items) {
    forall i, j :: 0 <= i < j < |items| ==> items[i].0 != items[j].0
  }

  lemma {:induction false} EntryLoaded(items: Items, i: nat)
    requires DistinctIds(items) && i < |items|
    ensures items[i].0 in Credentials(items) && Credentials(items)[items[i].0] == items[i].1
    ensures items[i].1.name in Index(items)
  {
    var init := items[..|items| - 1];
    if i < |init| {
      EntryLoaded(init, i);
    }
  }

  lemma {:induction false} EntrySource(items: Items, c: string) returns (i: nat)
    requires c in Credentials(items)
    ensures i < |items| && items[i].0 == c
  {
    if c == items[|items| - 1].0 {
      i := |items| - 1;
    } else {
      i := EntrySource(items[..|items| - 1], c);
    }
  }

  /** A name's id is that of the last entry with this name. */
  lemma {:induction false} LatestWins(items: Items, name: string) returns (i: nat)
    requires name in Index(items)
    ensures i < |items| && items[i].1.name == name && Index(items)[name] == items[i].0
    ensures forall j :: i < j < |items| ==> items[j].1.name != name
  {
    var init, last := items[..|items| - 1], items[|items| - 1];
    if name == last.1.name {
      i := |items| - 1;
    } else {
      i := LatestWins(init, name);
      assert forall j :: 0 <= j < |init| ==> items[j] == init[j];
    }
  }

  lemma CredentialsOfList(items: Items, m: map<string, Entry>)
    requires Lists(items, m)
    ensures Credentials(items) == m
  {
    forall c | c in Credentials(items) ensures c in m && Credentials(items)[c] == m[c] {
      var i := EntrySource(items, c);
      EntryLoaded(items, i);
    }
    forall c | c in m ensures c in Credentials(items) {
      var i :| 0 <= i < |items| && items[i].0 == c;
      EntryLoaded(items, i);
    }
  }

  /** Loading what was saved, in whatever order it was written, rebuilds the
      same credentials and the same index. */
  lemma SaveThenLoad(s: Store, items: Items)
    requires Inverse(s) && Lists(items, s.credentials)
    ensures Loaded(items) == s
  {
    CredentialsOfList(items, s.credentials);
    forall n | n in Index(items) ensures n in s.index && s.index[n] == Index(items)[n] {
      var i := LatestWins(items, n);
    }
    forall n | n in s.index ensures n in Index(items) {
      var i :| 0 <= i < |items| && items[i].0 == s.index[n];
      EntryLoaded(items, i);
    }
    assert Index(items) == s.index;
  }

  /** How a save ends: complete, before the file is opened, after it was
      truncated, or after it was written but before its mode was set. */
  datatype Outcome = Written | NotOpened | Partial | NotProtected

  /** The file afterwards; None stands for a missing or unreadable one. */
  function AfterSave(before: Option<Items>, items: Items, outcome: Outcome): Option<Items> {
    match outcome
    case Written => Some(items)
    case NotOpened => before
    case Partial => None
    case NotProtected => Some(items)
  }

  /** What the next process starts with. */
  function Reload(file: Option<Items>): Store {
    if file.Some? then Loaded(file.value) else EMPTY
  }

  /** What each way to end means for the next process: it finds exactly what was
      saved, even if the mode was not set; what was there before; or nothing. */
  lemma SaveOutcomes(s: Store, before: Option<Items>, items: Items, outcome: Outcome)
    requires Inverse(s) && Lists(items, s.credentials)
    ensures var r := Reload(AfterSave(before, items, outcome));
            && (outcome == Written || outcome == NotProtected ==> r == s)
            && (outcome == NotOpened ==> r == Reload(before))
            && (outcome == Partial ==> r == EMPTY)
  {
    SaveThenLoad(s, items);
  }

  // ---- Runs with their saves -----------------------------------------------

  /** One call, how its save ended, and the listing the save would write. */
  datatype Call = Call(op: Op, outcome: Outcome, items: Items)

  function Ops(calls: seq<Call>): seq<Op> {
    seq(|calls|, i requires 0 <= i < |calls| => calls[i].op)
  }

  /** The call changes the store, and only then does it save. */
  predicate Saves(s: Store, op: Op) {
    match op
    case Add(name, _, _, _, _, _, _) => !Taken(s, name)
    case Update(name, _, _, _, _) => Known(s, name)
    case Delete(name) => Known(s, name)
    case ClearAll(confirmed) => confirmed
  }

  function StoreOf(key: int, calls: seq<Call>): Store {
    Run(key, Ops(calls))
  }

  /** Each listing is one of the store as the call leaves it. */
  predicate Honest(key: int, calls: seq<Call>) {
    forall i :: 0 <= i < |calls| ==> Lists(calls[i].items, StoreOf(key, calls[..i + 1]).credentials)
  }

  predicate SavesAt(key: int, calls: seq<Call>, i: int)
    requires 0 <= i < |calls|
  {
    Saves(StoreOf(key, calls[..i]), calls[i].op)
  }

  /** The file after these calls; at first there is none. */
  function FileOf(key: int, calls: seq<Call>): Option<Items> {
    if calls == [] then None
    else
      var n := |calls| - 1;
      if SavesAt(key, calls, n) then AfterSave(FileOf(key, calls[..n]), calls[n].items, calls[n].outcome)
      else FileOf(key, calls[..n])
  }

  lemma OpsSnoc(calls: seq<Call>)
    requires calls != []
    ensures Ops(calls) == Ops(calls[..|calls| - 1]) + [calls[|calls| - 1].op]
  {
  }

  lemma {:induction false} FreshPrefix(key: int, ops: seq<Op>, n: nat)
    requires FreshIds(key, ops) && n <= |ops|
    ensures FreshIds(key, ops[..n])
  {
    if n < |ops| {
      FreshPrefix(key, ops[..|ops| - 1], n);
      assert ops[..|ops| - 1][..n] == ops[..n];
    } else {
      assert ops[..n] == ops;
    }
  }

  /** No save since call i has touched the file. */
  predicate Untouched(key: int, calls: seq<Call>, i: int)
    requires 0 <= i < |calls|
  {
    forall j :: i < j < |calls| && SavesAt(key, calls, j) ==> calls[j].outcome == NotOpened
  }

  lemma {:induction false} FileStays(key: int, calls: seq<Call>, i: nat)
    requires i < |calls| && Untouched(key, calls, i)
    ensures FileOf(key, calls) == FileOf(key, calls[..i + 1])
  {
    if i + 1 < |calls| {
      var init := calls[..|calls| - 1];
      forall j | i < j < |init| && SavesAt(key, init, j) ensures init[j].outcome == NotOpened {
        assert init[..j] == calls[..j] && SavesAt(key, calls, j);
      }
      FileStays(key, init, i);
      assert init[..i + 1] == calls[..i + 1];
      if SavesAt(key, calls, |calls| - 1) {
        assert calls[|calls| - 1].outcome == NotOpened;
      }
    } else {
      assert calls[..i + 1] == calls;
    }
  }

  /** Over every run: after a save that was completed the next process answers
      what a plain map held right after that call, until another save gets as far
      as opening the file. */
  lemma RestartFinds(key: int, calls: seq<Call>, i: nat, name: string)
    requires i < |calls| && Honest(key, calls) && FreshIds(key, Ops(calls))
    requires SavesAt(key, calls, i) && calls[i].outcome == Written && Untouched(key, calls, i)
    ensures var m := SpecRun(Ops(calls[..i + 1]));
            Get(Reload(FileOf(key, calls)), key, name) == if name in m then Found(m[name]) else Absent
  {
    FileStays(key, calls, i);
    FreshPrefix(key, Ops(calls), i + 1);
    assert Ops(calls[..i + 1]) == Ops(calls)[..i + 1];
    FileAtSave(key, calls, i);
    LookupUnderKey(key, Ops(calls[..i + 1]), key, name);
  }

  lemma FileAtSave(key: int, calls: seq<Call>, i: nat)
    requires i < |calls| && Honest(key, calls) && FreshIds(key, Ops(calls[..i + 1]))
    requires SavesAt(key, calls, i) && calls[i].outcome == Written
    ensures Reload(FileOf(key, calls[..i + 1])) == StoreOf(key, calls[..i + 1])
  {
    var done := calls[..i + 1];
    assert done[..i] == calls[..i] && done[i] == calls[i];
    RunRefines(key, Ops(done));
    SaveOutcomes(StoreOf(key, done), FileOf(key, calls[..i]), calls[i].items, calls[i].outcome);
  }

  /** Calls that do not save do not change what a lookup answers either. */
  lemma NoSaveNoChange(s: Store, key: int, op: Op)
    ensures !Saves(s, op) ==> Next(s, key, op) == s
  {
  }

  /** The file is written in place: a save leaves the old or the new credentials
      to the next process exactly when it is not cut short after the truncation,
      or one of the two is empty anyway. */
  lemma SaveAllOrNothing(s: Store, before: Option<Items>, items: Items, outcome: Outcome)
    requires Inverse(s) && Lists(items, s.credentials)
    ensures var r := Reload(AfterSave(before, items, outcome));
            (r == Reload(before) || r == s) <==> !outcome.Partial? || Reload(before) == EMPTY || s == EMPTY
  {
    SaveThenLoad(s, items);
  }

  lemma LoadedOne(c: string, e: Entry)
    ensures Loaded([(c, e)]) == Store(map[c := e], map[e.name := c])
  {
    var items := [(c, e)];
    assert items[..0] == [];
    assert Credentials(items) == map[c := e] && Index(items) == map[e.name := c];
  }

  /** Adding a second credential on a full disk: the next process finds none. */
  lemma LostStore(items: Items)
    requires Lists(items, Run(1, [ADD_X, ADD_Y]).credentials)
    ensures var before := Some([(ADD_X.cid, NewEntry(1, ADD_X))]);
            && Reload(before) == Run(1, [ADD_X])
            && Get(Run(1, [ADD_X]), 1, "x").Found?
            && Reload(AfterSave(before, items, Partial)) == EMPTY
  {
    LoadedOne(ADD_X.cid, NewEntry(1, ADD_X));
    RunSnoc(1, [], ADD_X);
    assert [] + [ADD_X] == [ADD_X];
  }

  // ---- The store object ----------------------------------------------------

  datatype Error = KeyError | DiskError

  class CredentialStoreObject {
    const key: int
    var credentials: map<string, Entry>
    var index: map<string, string>
    var file: Option<Items>

    ghost function Contents(): Store
      reads this
    {
      Store(credentials, index)
    }

    /** None stands for a missing or unreadable file. */
    constructor (key: int, file: Option<Items>)
      ensures this.key == key && this.file == file
      ensures Contents() == Reload(file)
    {
      this.key, this.file := key, file;
      credentials, index := map[], map[];
      new;
      if file.Some? {
        var items := file.value;
        for i := 0 to |items|
          invariant Contents() == Loaded(items[..i]) && this.file == file
        {
          assert items[..i + 1][..i] == items[..i];
          credentials := credentials[items[i].0 := items[i].1];
          index := index[items[i].1.name := items[i].0];
        }
        assert items[..|items|] == items;
      }
    }

    /** Writes the whole dictionary in place. */
    method Save(outcome: Outcome) returns (r: Result<(), Error>)
      modifies `file
      ensures r == if outcome.Written? then Ok(()) else Err(DiskError)
      ensures SavedOver(old(file), outcome) && Restarts(old(file), outcome)
    {
      var items: Items := [];
      var left := credentials.Keys;
      while left != {}
        invariant left <= credentials.Keys
        invariant DistinctIds(items)
        invariant forall i :: 0 <= i < |items| ==>
                    items[i].0 in credentials && items[i].0 !in left && credentials[items[i].0] == items[i].1
        invariant forall c :: c in credentials && c !in left ==> exists i :: 0 <= i < |items| && items[i].0 == c
        decreases |left|
      {
        var c :| c in left;
        ghost var before := items;
        items := items + [(c, credentials[c])];
        assert items[|before|].0 == c;
        forall d | d in credentials && d !in left - {c} ensures exists i :: 0 <= i < |items| && items[i].0 == d {
          if d != c {
            var i :| 0 <= i < |before| && before[i].0 == d;
            assert items[i].0 == d;
          }
        }
        left := left - {c};
      }
      assert Lists(items, credentials);
      match outcome {
        case NotOpened =>
        case Partial => file := None;
        case Written => file := Some(items);
        case NotProtected => file := Some(items);
      }
      assert file == AfterSave(old(file), items, outcome);
      if Inverse(Contents()) {
        SaveOutcomes(Contents(), old(file), items, outcome);
      }
      return if outcome.Written? then Ok(()) else Err(DiskError);
    }

    /** What a save that ended this way means for the next process. */
    ghost predicate Restarts(before: Option<Items>, outcome: Outcome)
      reads this
    {
      && (outcome == NotOpened ==> file == before)
      && (outcome == Partial ==> Reload(file) == EMPTY)
      && ((outcome == Written || outcome == NotProtected) && Inverse(Contents()) ==> Reload(file) == Contents())
    }

    /** The file is what saving the present credentials over before leaves. */
    ghost predicate SavedOver(before: Option<Items>, outcome: Outcome)
      reads this
    {
      exists items :: Lists(items, credentials) && file == AfterSave(before, items, outcome)
    }

    method Add(name: string, kind: string, value: string, description: string, cid: string, nonce: int, now: string, outcome: Outcome)
      returns (r: Result<string, Error>)
      modifies this
      ensures Contents() == Next(old(Contents()), key, Op.Add(name, kind, value, description, cid, nonce, now))
      ensures r == if Taken(old(Contents()), name) || outcome.Written? then Ok(name) else Err(DiskError)
      ensures if Taken(old(Contents()), name) then file == old(file)
              else SavedOver(old(file), outcome) && Restarts(old(file), outcome)
    {
      if name in index && index[name] != "" && index[name] in credentials {
        return Ok(name);
      }
      credentials := credentials[cid := Entry(name, kind, Token.Sealed(key, value, nonce), description, now, now)];
      index := index[name := cid];
      var saved := Save(outcome);
      return if saved.Ok? then Ok(name) else Err(DiskError);
    }

    method Lookup(name: string) returns (r: Lookup)
      ensures r == Get(Contents(), key, name)
    {
      if name !in index || index[name] !in credentials {
        return Absent;
      }
      var e := credentials[index[name]];
      var plain := Decrypt(key, e.token);
      return if plain.None? then Raised else Found(Secret(e.kind, plain.value, e.description, e.created, e.updated));
    }

    method Update(name: string, value: string, description: Option<string>, nonce: int, now: string, outcome: Outcome)
      returns (r: Result<(), Error>)
      modifies this
      ensures Contents() == Next(old(Contents()), key, Op.Update(name, value, description, nonce, now))
      ensures r == if !Known(old(Contents()), name) then Err(KeyError)
                   else if outcome.Written? then Ok(()) else Err(DiskError)
      ensures if Known(old(Contents()), name) then SavedOver(old(file), outcome) && Restarts(old(file), outcome)
              else file == old(file)
    {
      if name !in index || index[name] !in credentials {
        return Err(KeyError);
      }
      var cid := index[name];
      credentials := credentials[cid := credentials[cid].(token := Token.Sealed(key, value, nonce))];
      if description.Some? {
        credentials := credentials[cid := credentials[cid].(description := description.value)];
      }
      credentials := credentials[cid := credentials[cid].(updated := now)];
      r := Save(outcome);
    }

    method Delete(name: string, outcome: Outcome) returns (r: Result<(), Error>)
      modifies this
      ensures Contents() == Next(old(Contents()), key, Op.Delete(name))
      ensures r == if !Known(old(Contents()), name) || outcome.Written? then Ok(()) else Err(DiskError)
      ensures if Known(old(Contents()), name) then SavedOver(old(file), outcome) && Restarts(old(file), outcome)
              else file == old(file)
    {
      if name !in index || index[name] !in credentials {
        return Ok(());
      }
      credentials := credentials - {index[name]};
      index := index - {name};
      r := Save(outcome);
    }

    method ClearAll(confirmed: bool, outcome: Outcome) returns (r: Result<(), Error>)
      modifies this
      ensures Contents() == Next(old(Contents()), key, Op.ClearAll(confirmed))
      ensures r == if !confirmed || outcome.Written? then Ok(()) else Err(DiskError)
      ensures if confirmed then SavedOver(old(file), outcome) && Restarts(old(file), outcome)
              else file == old(file)
    {
      if !confirmed {
        return Ok(());
      }
      credentials, index := map[], map[];
      r := Save(outcome);
    }
  }
}
