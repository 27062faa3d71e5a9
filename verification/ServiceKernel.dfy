/** The table of connected services, keyed by session index and searched by address, and the
    balance server's cached session to the central server.
 */
module ServiceKernels {
  import opened Bytes
  import opened ServerTypes

  const INVALID_UUID: int32 := -1

  datatype Address = Address(kind: int16, port: nat, ip: bytes)

  /** A session object; two references are equal when they are the same object. */
  datatype SessionRef = SessionRef(id: nat, kind: byte)

  datatype Config = Config(address: Address, sid: int32, session: SessionRef)

  datatype Kernel = Kernel(services: map<int32, Config>, central: Option<SessionRef>, logicIDs: map<nat, int32>)

  datatype ConnectState = Connect | Update | Close

  /// What each function of the classes does

  function Notified(k: Kernel, session: SessionRef, state: ConnectState): Kernel {
    if state == Close then
      if k.central == Some(session) then k.(central := None) else k
    else
      if session.kind == CENTRAL_SERVER then k.(central := Some(session)) else k
  }

  ghost predicate HasAddress(services: map<int32, Config>, a: Address) {
    exists u :: u in services && services[u].address == a
  }

  /** `checkConnectService` returns the index of any entry with the address, the walk is in no particular
      order. The caller takes -1 for nothing found, also when it is the index of an entry. */
  ghost predicate Finds(services: map<int32, Config>, address: Address, found: Option<int32>) {
    match found
    case Some(u) => u != INVALID_UUID && u in services && services[u].address == address
    case None =>
      !HasAddress(services, address) || (INVALID_UUID in services && services[INVALID_UUID].address == address)
  }

  /** `addNewConnect` makes a new entry when it has found nothing, and for every start-up connection, which
      has no service id. */
  predicate Creates(sid: int32, found: Option<int32>) {
    found.None? || sid == INVALID_UUID
  }

  /** `addNewConnect`, given what the walk found and the session that would be created. */
  function Add(k: Kernel, address: Address, sid: int32, found: Option<int32>, session: SessionRef, uuid: int32): Kernel
    requires found.Some? ==> found.value in k.services
  {
    if Creates(sid, found) then
      Notified(k.(services := k.services[uuid := Config(address, sid, session)]), session, Connect)
    else
      var known := k.services[found.value];
      Notified(
        k.(services := k.services[found.value := known.(sid := sid)], logicIDs := k.logicIDs[known.session.id := sid]),
        known.session, Update)
  }

  function Remove(k: Kernel, uuid: int32): Kernel {
    if uuid in k.services then
      var l := Notified(k, k.services[uuid].session, Close);
      l.(services := l.services - {uuid})
    else k
  }

  function EmptyKernel(): Kernel {
    Kernel(map[], None, map[])
  }

  /// One entry an address

  ghost predicate Unique(services: map<int32, Config>) {
    forall u, v :: u in services && v in services && services[u].address == services[v].address ==> u == v
  }

  /** With unique addresses the result of the walk does not depend on its order. */
  lemma WalkIsOrderIndependent(services: map<int32, Config>, address: Address, a: Option<int32>, b: Option<int32>)
    requires Unique(services) && Finds(services, address, a) && Finds(services, address, b)
    ensures a == b
  {
  }

  /** The table as a map from addresses: the abstraction that add and remove refine. */
  ghost predicate Represents(services: map<int32, Config>, m: map<Address, Config>) {
    && Unique(services)
    && (forall u :: u in services ==> services[u].address in m && m[services[u].address] == services[u])
    && (forall a :: a in m ==> HasAddress(services, a))
  }

  /** There is already an entry with the address, other than one that the new entry replaces. */
  ghost predicate Duplicates(services: map<int32, Config>, address: Address, sid: int32, found: Option<int32>,
                             uuid: int32) {
    Creates(sid, found) && exists v :: v != uuid && v in services && services[v].address == address
  }

  /** Adding keeps addresses unique if and only if it does not make a second entry. Under a fresh index that
      is when an entry is made for an address that the table has: for a start-up connection, or because the
      entry has index -1. */
  lemma AddKeepsUniqueIff(k: Kernel, address: Address, sid: int32, found: Option<int32>,
                          session: SessionRef, uuid: int32)
    requires Unique(k.services) && Finds(k.services, address, found)
    ensures Unique(Add(k, address, sid, found, session, uuid).services) <==>
            !Duplicates(k.services, address, sid, found, uuid)
    ensures uuid !in k.services ==>
              (Duplicates(k.services, address, sid, found, uuid) <==>
               HasAddress(k.services, address) && (sid == INVALID_UUID || found.None?))
  {
    var after := Add(k, address, sid, found, session, uuid).services;
    if Duplicates(k.services, address, sid, found, uuid) {
      var v :| v != uuid && v in k.services && k.services[v].address == address;
      assert after[v].address == after[uuid].address;
    } else if Creates(sid, found) {
      assert forall v :: v in after && v != uuid ==> after[v] == k.services[v] && after[v].address != address;
    }
  }

  /** An entry with index -1 is never found: re-adding its address makes a second entry. */
  lemma InvalidIndexIsNotFound()
    ensures
      var a, s1, s2 := Address(5, 1, []), SessionRef(1, CENTRAL_SERVER), SessionRef(2, CENTRAL_SERVER);
      var k := Add(EmptyKernel(), a, 7, None, s1, -1);
      && Finds(k.services, a, None) && !Finds(k.services, a, Some(-1))
      && !Unique(Add(k, a, 8, None, s2, 3).services)
  {
    var a, s1, s2 := Address(5, 1, []), SessionRef(1, CENTRAL_SERVER), SessionRef(2, CENTRAL_SERVER);
    var k := Add(EmptyKernel(), a, 7, None, s1, INVALID_UUID);
    var after := Add(k, a, 8, None, s2, 3).services;
    assert after[INVALID_UUID].address == after[3].address;
  }

  /** The address-keyed map after adding: a new entry for the address, instead of the entry that had the
      index before, or a new service id for the one there is. */
  function MapAdd(services: map<int32, Config>, m: map<Address, Config>, address: Address, sid: int32,
                  found: Option<int32>, session: SessionRef, uuid: int32): map<Address, Config> {
    if !Creates(sid, found) then (if address in m then m[address := m[address].(sid := sid)] else m)
    else (if uuid in services then m - {services[uuid].address} else m)[address := Config(address, sid, session)]
  }

  /** Adding that makes no second entry refines an update of the address-keyed map. The walk finds the
      addresses of the map, but for the entry with index -1; without one, and under a fresh index, a known
      address keeps its session. */
  lemma AddRefines(k: Kernel, m: map<Address, Config>, address: Address, sid: int32, found: Option<int32>,
                   session: SessionRef, uuid: int32)
    requires Represents(k.services, m) && Finds(k.services, address, found)
    requires !Duplicates(k.services, address, sid, found, uuid)
    ensures
      var m' := MapAdd(k.services, m, address, sid, found, session, uuid);
      && Represents(Add(k, address, sid, found, session, uuid).services, m')
      && (uuid !in k.services && INVALID_UUID !in k.services ==>
            m' == m[address := if address in m then m[address].(sid := sid) else Config(address, sid, session)])
  {
    assert Unique(k.services);
    RepresentationDecidesLookup(k.services, m, address, found);
    AddKeepsUniqueIff(k, address, sid, found, session, uuid);
    FreshMapAdd(k.services, m, address, sid, found, session, uuid);
    hide Unique, Represents, Duplicates, HasAddress, Add;
    var changed := if Creates(sid, found) then uuid else found.value;
    var c := if Creates(sid, found) then Config(address, sid, session) else k.services[found.value].(sid := sid);
    AddedEntry(k, address, sid, found, session, uuid);
    UpdateRepresents(k.services, m, changed, c);
    if !Creates(sid, found) {
      assert MapAdd(k.services, m, address, sid, found, session, uuid) == (m - {address})[address := c];
    }
  }

  lemma AddedEntry(k: Kernel, address: Address, sid: int32, found: Option<int32>, session: SessionRef, uuid: int32)
    requires found.Some? ==> found.value in k.services
    ensures Add(k, address, sid, found, session, uuid).services ==
            if Creates(sid, found) then k.services[uuid := Config(address, sid, session)]
            else k.services[found.value := k.services[found.value].(sid := sid)]
  {
  }

  lemma FreshMapAdd(services: map<int32, Config>, m: map<Address, Config>, address: Address, sid: int32,
                    found: Option<int32>, session: SessionRef, uuid: int32)
    requires Represents(services, m) && Finds(services, address, found)
    requires !Duplicates(services, address, sid, found, uuid)
    ensures uuid !in services && INVALID_UUID !in services ==>
              MapAdd(services, m, address, sid, found, session, uuid) ==
              m[address := if address in m then m[address].(sid := sid) else Config(address, sid, session)]
  {
    RepresentationDecidesLookup(services, m, address, found);
    if uuid !in services && address in m {
      assert HasAddress(services, address);
    }
  }

  lemma UpdateRepresents(services: map<int32, Config>, m: map<Address, Config>, u: int32, c: Config)
    requires Represents(services, m) && Unique(services[u := c])
    ensures Represents(services[u := c], (if u in services then m - {services[u].address} else m)[c.address := c])
  {
    var after, m' := services[u := c], (if u in services then m - {services[u].address} else m)[c.address := c];
    assert after[u].address == c.address;
    forall v | v in after ensures after[v].address in m' && m'[after[v].address] == after[v] {
      if v != u { assert after[v].address != after[u].address; }
    }
    forall a | a in m' ensures HasAddress(after, a) {
      if a != c.address {
        assert HasAddress(services, a);
        var v :| v in services && services[v].address == a;
        assert after[v].address == a;
      }
    }
  }

  /** Removing an index removes its address from the address-keyed map and nothing else. */
  lemma RemoveRefines(k: Kernel, m: map<Address, Config>, uuid: int32)
    requires Represents(k.services, m)
    ensures Represents(Remove(k, uuid).services,
                       if uuid in k.services then m - {k.services[uuid].address} else m)
  {
    if uuid in k.services {
      ShrinkRepresents(k.services, m, uuid);
    }
  }

  lemma ShrinkRepresents(services: map<int32, Config>, m: map<Address, Config>, u: int32)
    requires Represents(services, m) && u in services
    ensures Represents(services - {u}, m - {services[u].address})
  {
    var gone, after := services[u].address, services - {u};
    forall a | a in m && a != gone ensures HasAddress(after, a) {
      var v :| v in services && services[v].address == a;
      assert after[v].address == a;
    }
  }

  /** What the walk finds is what the address-keyed map holds; it finds everything but the entry with
      index -1. */
  lemma RepresentationDecidesLookup(services: map<int32, Config>, m: map<Address, Config>, address: Address,
                                    found: Option<int32>)
    requires Represents(services, m) && Finds(services, address, found)
    ensures found.Some? ==> address in m && services[found.value] == m[address]
    ensures found.Some? <==>
            address in m && !(INVALID_UUID in services && services[INVALID_UUID].address == address)
  {
  }

  ghost predicate SidFree(services: map<int32, Config>, sid: int32, except: int32) {
    forall v :: v in services && v != except ==> services[v].sid != sid
  }

  /** Re-adding a known address under a new service id: every entry keeps its session, the id finds
      the old session and only it, and the old id finds nothing if and only if no other entry had it. */
  lemma ReAddMovesSid(k: Kernel, address: Address, sid: int32, u: int32, session: SessionRef, uuid: int32)
    requires Finds(k.services, address, Some(u)) && sid != INVALID_UUID && SidFree(k.services, sid, u)
    ensures
      var before, after := k.services, Add(k, address, sid, Some(u), session, uuid).services;
      && after.Keys == before.Keys
      && (forall v :: v in after ==> after[v].session == before[v].session && after[v].address == before[v].address)
      && (forall v :: v in after && after[v].sid == sid <==> v == u)
      && (forall v :: v in after && v != u ==> after[v] == before[v])
      && (var ids := Add(k, address, sid, Some(u), session, uuid).logicIDs;
          && before[u].session.id in ids && ids[before[u].session.id] == sid
          && forall s :: s != before[u].session.id ==>
               (s in ids <==> s in k.logicIDs) && (s in ids ==> ids[s] == k.logicIDs[s]))
      && (before[u].sid != sid ==>
            ((forall v :: v in after ==> after[v].sid != before[u].sid) <==> SidFree(before, before[u].sid, u)))
  {
    var before, after := k.services, Add(k, address, sid, Some(u), session, uuid).services;
    assert after == before[u := before[u].(sid := sid)];
    if !SidFree(before, before[u].sid, u) {
      var v :| v in before && v != u && before[v].sid == before[u].sid;
      assert after[v].sid == before[u].sid;
    }
  }

  /// The cached session to the central server

  ghost predicate IsCentral(services: map<int32, Config>, u: int32) {
    u in services && services[u].session.kind == CENTRAL_SERVER
  }

  ghost predicate AtMostOneCentral(services: map<int32, Config>) {
    forall u, v :: IsCentral(services, u) && IsCentral(services, v) ==> u == v
  }

  /** The cache is empty or a session of the table that leads to a central server. */
  ghost predicate CacheSound(k: Kernel) {
    k.central.Some? ==>
      && k.central.value.kind == CENTRAL_SERVER
      && exists u :: IsCentral(k.services, u) && k.services[u].session == k.central.value
  }

  /** An empty cache means that the table leads to no central server. */
  ghost predicate CacheComplete(k: Kernel) {
    k.central.None? ==> forall u :: !IsCentral(k.services, u)
  }

  datatype KernelEvent =
    | Adding(address: Address, sid: int32, found: Option<int32>, session: SessionRef, uuid: int32)
    | Removing(uuid: int32)

  ghost predicate Possible(k: Kernel, e: KernelEvent) {
    match e
    case Adding(address, _, found, _, _) => Finds(k.services, address, found)
    case Removing(_) => true
  }

  function KernelNext(k: Kernel, e: KernelEvent): Kernel
    requires e.Adding? && e.found.Some? ==> e.found.value in k.services
  {
    match e
    case Adding(address, sid, found, session, uuid) => Add(k, address, sid, found, session, uuid)
    case Removing(uuid) => Remove(k, uuid)
  }

  /** The session that adding reports to the balance server: a new one, or the known one of the address. */
  function Reported(k: Kernel, sid: int32, found: Option<int32>, session: SessionRef): SessionRef {
    if Creates(sid, found) || found.value !in k.services then session else k.services[found.value].session
  }

  /** Another entry leads to a central server. */
  ghost predicate OtherCentral(services: map<int32, Config>, u: int32) {
    exists v :: v != u && IsCentral(services, v)
  }

  ghost predicate OnlyCentral(services: map<int32, Config>, u: int32) {
    IsCentral(services, u) && !OtherCentral(services, u)
  }

  /** Adding keeps a complete cache complete, and makes an incomplete one complete if and only if the
      session it reports leads to a central server, or it replaces the last central entry. */
  lemma AddKeepsCache(k: Kernel, address: Address, sid: int32, found: Option<int32>, session: SessionRef, uuid: int32)
    requires found.Some? ==> found.value in k.services
    ensures CacheComplete(Add(k, address, sid, found, session, uuid)) <==>
            || CacheComplete(k)
            || Reported(k, sid, found, session).kind == CENTRAL_SERVER
            || (Creates(sid, found) && OnlyCentral(k.services, uuid))
  {
    var after := Add(k, address, sid, found, session, uuid);
    var changed := if Creates(sid, found) then uuid else found.value;
    assert after.services[changed].session == Reported(k, sid, found, session);
    assert forall u :: u != changed ==> (IsCentral(after.services, u) <==> IsCentral(k.services, u));
    assert !Creates(sid, found) ==> (IsCentral(after.services, changed) <==> IsCentral(k.services, changed));
  }

  /** A new entry under an index that is in use takes the place of the only entry of the cached session. */
  ghost predicate DisplacesCentral(k: Kernel, sid: int32, found: Option<int32>, session: SessionRef, uuid: int32) {
    && Creates(sid, found) && session.kind != CENTRAL_SERVER
    && k.central.Some? && forall v :: v in k.services && k.services[v].session == k.central.value ==> v == uuid
  }

  /** For any index, fresh or in use: adding keeps the cache sound if and only if it does not displace the
      cached session; under a fresh index it never does. */
  lemma AddKeepsSoundIff(k: Kernel, address: Address, sid: int32, found: Option<int32>,
                         session: SessionRef, uuid: int32)
    requires (found.Some? ==> found.value in k.services) && CacheSound(k)
    ensures CacheSound(Add(k, address, sid, found, session, uuid)) <==> !DisplacesCentral(k, sid, found, session, uuid)
    ensures uuid !in k.services ==> !DisplacesCentral(k, sid, found, session, uuid)
  {
    var after := Add(k, address, sid, found, session, uuid);
    var changed := if Creates(sid, found) then uuid else found.value;
    if after.services[changed].session.kind == CENTRAL_SERVER {
      assert IsCentral(after.services, changed);
    } else if k.central.Some? {
      assert after.central == k.central;
      if !DisplacesCentral(k, sid, found, session, uuid) {
        var v :| v in k.services && k.services[v].session == k.central.value && (v != uuid || !Creates(sid, found));
        assert IsCentral(after.services, v);
      }
    }
  }

  /** Removing the entry drops the cached session although another central entry is left. */
  ghost predicate LosesCache(k: Kernel, u: int32) {
    u in k.services && k.central == Some(k.services[u].session) && OtherCentral(k.services, u)
  }

  /** Removing an entry keeps a sound cache sound, and a complete one complete if and only if it does not
      remove the cached session while there is another central entry. An incomplete one becomes complete
      only by removing the last central entry. */
  lemma RemoveKeepsCache(k: Kernel, u: int32)
    ensures CacheSound(k) ==> CacheSound(Remove(k, u))
    ensures CacheComplete(Remove(k, u)) <==> if CacheComplete(k) then !LosesCache(k, u) else OnlyCentral(k.services, u)
  {
    var after := Remove(k, u);
    forall v ensures IsCentral(after.services, v) <==> v != u && IsCentral(k.services, v) {
    }
    if CacheSound(k) && after.central.Some? {
      var v :| IsCentral(k.services, v) && k.services[v].session == k.central.value;
      assert IsCentral(after.services, v);
    }
  }

  ghost predicate AllPossible(k: Kernel, es: seq<KernelEvent>)
    decreases |es|
  {
    es == [] || (Possible(k, es[0]) && AllPossible(KernelNext(k, es[0]), es[1..]))
  }

  function KernelRun(k: Kernel, es: seq<KernelEvent>): Kernel
    requires AllPossible(k, es)
    decreases |es|
  {
    if es == [] then k else KernelRun(KernelNext(k, es[0]), es[1..])
  }

  ghost predicate Duplicating(k: Kernel, e: KernelEvent) {
    e.Adding? && Duplicates(k.services, e.address, e.sid, e.found, e.uuid)
  }

  /** No step makes a second entry for an address. */
  ghost predicate NeverDuplicates(k: Kernel, es: seq<KernelEvent>)
    requires AllPossible(k, es)
    decreases |es|
  {
    es == [] || (!Duplicating(k, es[0]) && NeverDuplicates(KernelNext(k, es[0]), es[1..]))
  }

  ghost predicate AlwaysUnique(k: Kernel, es: seq<KernelEvent>)
    requires AllPossible(k, es)
    decreases |es|
  {
    Unique(k.services) && (es == [] || AlwaysUnique(KernelNext(k, es[0]), es[1..]))
  }

  /** The address-keyed map after the same events. */
  ghost function MapNext(k: Kernel, m: map<Address, Config>, e: KernelEvent): map<Address, Config> {
    match e
    case Adding(address, sid, found, session, uuid) => MapAdd(k.services, m, address, sid, found, session, uuid)
    case Removing(uuid) => if uuid in k.services then m - {k.services[uuid].address} else m
  }

  ghost function MapRun(k: Kernel, m: map<Address, Config>, es: seq<KernelEvent>): map<Address, Config>
    requires AllPossible(k, es)
    decreases |es|
  {
    if es == [] then m else MapRun(KernelNext(k, es[0]), MapNext(k, m, es[0]), es[1..])
  }

  lemma NextKeepsUniqueIff(k: Kernel, e: KernelEvent)
    requires Possible(k, e) && Unique(k.services)
    ensures Unique(KernelNext(k, e).services) <==> !Duplicating(k, e)
  {
    if e.Adding? {
      AddKeepsUniqueIff(k, e.address, e.sid, e.found, e.session, e.uuid);
    }
  }

  /** Over every run, whatever indices are used, there is always one entry an address if and only if no
      step makes a second one. */
  lemma {:induction false} AlwaysUniqueIff(k: Kernel, es: seq<KernelEvent>)
    requires AllPossible(k, es) && Unique(k.services)
    ensures AlwaysUnique(k, es) <==> NeverDuplicates(k, es)
    decreases |es|
  {
    hide Unique, Duplicating, KernelNext;
    if es != [] {
      NextKeepsUniqueIff(k, es[0]);
      if Unique(KernelNext(k, es[0]).services) {
        AlwaysUniqueIff(KernelNext(k, es[0]), es[1..]);
      } else {
        assert !AlwaysUnique(KernelNext(k, es[0]), es[1..]);
      }
    }
  }

  /** And then the table refines the address-keyed map, whatever order the walks take. */
  lemma {:induction false} TableRefinesMap(k: Kernel, m: map<Address, Config>, es: seq<KernelEvent>)
    requires AllPossible(k, es) && NeverDuplicates(k, es) && Represents(k.services, m)
    ensures Represents(KernelRun(k, es).services, MapRun(k, m, es))
    decreases |es|
  {
    if es != [] {
      match es[0] {
        case Adding(address, sid, found, session, uuid) => AddRefines(k, m, address, sid, found, session, uuid);
        case Removing(uuid) => RemoveRefines(k, m, uuid);
      }
      TableRefinesMap(KernelNext(k, es[0]), MapNext(k, m, es[0]), es[1..]);
    }
  }

  /** The states of a run, from the first to the last. */
  function States(k: Kernel, es: seq<KernelEvent>): (ks: seq<Kernel>)
    requires AllPossible(k, es)
    ensures |ks| == |es| + 1 && ks[0] == k && ks[|es|] == KernelRun(k, es)
    ensures forall i :: 0 <= i < |es| ==> Possible(ks[i], es[i]) && ks[i + 1] == KernelNext(ks[i], es[i])
    decreases |es|
  {
    if es == [] then [k] else [k] + States(KernelNext(k, es[0]), es[1..])
  }

  /// Breaking and healing

  /** Whenever something breaks, something later heals. */
  ghost predicate EveryBreakHealed(breaks: seq<bool>, heals: seq<bool>) {
    forall i :: 0 <= i < |breaks| && breaks[i] ==> HealsAfter(heals, i)
  }

  ghost predicate HealsAfter(heals: seq<bool>, i: nat) {
    exists j :: i < j < |heals| && heals[j]
  }

  lemma HealsAfterStep(heals: seq<bool>, i: nat, n: nat)
    requires i < n < |heals|
    ensures HealsAfter(heals[..n + 1], i) <==> HealsAfter(heals[..n], i) || heals[n]
  {
    assert heals[..n + 1] == heals[..n] + [heals[n]];
    if HealsAfter(heals[..n], i) {
      var j :| i < j < n && heals[..n][j];
      assert heals[..n + 1][j];
    }
    if heals[n] {
      assert heals[..n + 1][n];
    }
  }

  /** What starts out good, stays good until a step breaks it, and stays bad until a step heals it, is good
      if and only if everything that broke has been healed since. */
  lemma {:induction false} GoodIffHealed(good: seq<bool>, breaks: seq<bool>, heals: seq<bool>, n: nat)
    requires |good| == |breaks| + 1 == |heals| + 1 && n < |good| && good[0]
    requires forall i :: 0 <= i < |breaks| ==>
               !(breaks[i] && heals[i]) && good[i + 1] == if good[i] then !breaks[i] else heals[i]
    ensures good[n] <==> EveryBreakHealed(breaks[..n], heals[..n])
  {
    if n > 0 {
      var k := n - 1;
      GoodIffHealed(good, breaks, heals, k);
      assert breaks[..n] == breaks[..k] + [breaks[k]];
      assert !HealsAfter(heals[..n], k);
      forall i | 0 <= i < k ensures HealsAfter(heals[..n], i) <==> HealsAfter(heals[..k], i) || heals[k] {
        HealsAfterStep(heals, i, k);
      }
      assert good[n] == if good[k] then !breaks[k] else heals[k];
      if breaks[k] {
        assert breaks[..n][k];
      } else if heals[k] {
        assert forall i :: 0 <= i < k ==> HealsAfter(heals[..n], i);
      } else {
        assert forall i :: 0 <= i < k ==> breaks[..n][i] == breaks[..k][i];
        assert forall i :: 0 <= i < k ==> breaks[..k][i] == breaks[..n][i];
      }
    }
  }

  /** The event forgets a central session that is still needed. */
  ghost predicate Loses(k: Kernel, e: KernelEvent) {
    e.Removing? && LosesCache(k, e.uuid)
  }

  /** The event makes up for it: it reports a central session, or takes away the last central entry. */
  ghost predicate Heals(k: Kernel, e: KernelEvent) {
    match e
    case Adding(_, sid, found, session, uuid) =>
      || Reported(k, sid, found, session).kind == CENTRAL_SERVER
      || (Creates(sid, found) && OnlyCentral(k.services, uuid))
    case Removing(u) => OnlyCentral(k.services, u)
  }

  /** The event puts another entry in the place of the cached session. */
  ghost predicate Displaces(k: Kernel, e: KernelEvent) {
    e.Adding? && DisplacesCentral(k, e.sid, e.found, e.session, e.uuid)
  }

  /** The event reports a central session, which is cached from then on. */
  ghost predicate Recaches(k: Kernel, e: KernelEvent) {
    e.Adding? && Reported(k, e.sid, e.found, e.session).kind == CENTRAL_SERVER
  }

  /** Only central sessions are ever cached. */
  ghost predicate CentralKind(k: Kernel) {
    k.central.Some? ==> k.central.value.kind == CENTRAL_SERVER
  }

  /** Every step: the cache is complete, and sound, afterwards if and only if it was and the step does not
      break that, or it was not and the step heals it. */
  lemma NextKeepsCache(k: Kernel, e: KernelEvent)
    requires Possible(k, e) && CentralKind(k)
    ensures CentralKind(KernelNext(k, e))
    ensures CacheComplete(KernelNext(k, e)) <==> if CacheComplete(k) then !Loses(k, e) else Heals(k, e)
    ensures CacheSound(KernelNext(k, e)) <==> if CacheSound(k) then !Displaces(k, e) else Recaches(k, e)
    ensures !(Loses(k, e) && Heals(k, e)) && !(Displaces(k, e) && Recaches(k, e))
  {
    match e
    case Adding(address, sid, found, session, uuid) =>
      AddKeepsCache(k, address, sid, found, session, uuid);
      if CacheSound(k) {
        AddKeepsSoundIff(k, address, sid, found, session, uuid);
      } else {
        AddToUnsound(k, address, sid, found, session, uuid);
      }
    case Removing(u) => RemoveKeepsCache(k, u);
  }

  lemma AddToUnsound(k: Kernel, address: Address, sid: int32, found: Option<int32>, session: SessionRef, uuid: int32)
    requires (found.Some? ==> found.value in k.services) && CentralKind(k) && !CacheSound(k)
    ensures CacheSound(Add(k, address, sid, found, session, uuid)) <==>
            Reported(k, sid, found, session).kind == CENTRAL_SERVER
  {
    var after := Add(k, address, sid, found, session, uuid);
    var changed := if Creates(sid, found) then uuid else found.value;
    assert after.services[changed].session == Reported(k, sid, found, session);
    if Reported(k, sid, found, session).kind == CENTRAL_SERVER {
      assert IsCentral(after.services, changed);
    } else {
      forall u | IsCentral(after.services, u) ensures after.services[u].session != after.central.value {
        assert u != changed && IsCentral(k.services, u);
      }
    }
  }

  /** Every removal of a run that forgot the cached session while there was another central entry has been
      made up for since. */
  ghost predicate EveryLossHealed(k: Kernel, es: seq<KernelEvent>)
    requires AllPossible(k, es)
  {
    var ks := States(k, es);
    EveryBreakHealed(seq(|es|, i requires 0 <= i < |es| => Loses(ks[i], es[i])),
                     seq(|es|, i requires 0 <= i < |es| => Heals(ks[i], es[i])))
  }

  /** Since every displacement of the cached session in a run, a central session has been reported. */
  ghost predicate EveryDisplacementHealed(k: Kernel, es: seq<KernelEvent>)
    requires AllPossible(k, es)
  {
    var ks := States(k, es);
    EveryBreakHealed(seq(|es|, i requires 0 <= i < |es| => Displaces(ks[i], es[i])),
                     seq(|es|, i requires 0 <= i < |es| => Recaches(ks[i], es[i])))
  }

  lemma {:induction false} RunKeepsKind(k: Kernel, es: seq<KernelEvent>, n: nat)
    requires AllPossible(k, es) && n <= |es| && CentralKind(k)
    ensures CentralKind(States(k, es)[n])
  {
    if n > 0 {
      RunKeepsKind(k, es, n - 1);
      NextKeepsCache(States(k, es)[n - 1], es[n - 1]);
    }
  }

  lemma RunKeepsComplete(k: Kernel, es: seq<KernelEvent>)
    requires AllPossible(k, es) && CentralKind(k) && CacheComplete(k)
    ensures CacheComplete(KernelRun(k, es)) <==> EveryLossHealed(k, es)
  {
    hide Loses, Heals, CacheComplete, CentralKind, Possible, KernelNext, EveryBreakHealed;
    var ks, n := States(k, es), |es|;
    var good := seq(n + 1, i requires 0 <= i <= n => CacheComplete(ks[i]));
    var breaks := seq(n, i requires 0 <= i < n => Loses(ks[i], es[i]));
    var heals := seq(n, i requires 0 <= i < n => Heals(ks[i], es[i]));
    forall i | 0 <= i < n
      ensures !(breaks[i] && heals[i]) && good[i + 1] == if good[i] then !breaks[i] else heals[i]
    {
      RunKeepsKind(k, es, i);
      NextKeepsCache(ks[i], es[i]);
    }
    GoodIffHealed(good, breaks, heals, n);
    assert breaks[..n] == breaks && heals[..n] == heals;
  }

  lemma RunKeepsSound(k: Kernel, es: seq<KernelEvent>)
    requires AllPossible(k, es) && CacheSound(k)
    ensures CacheSound(KernelRun(k, es)) <==> EveryDisplacementHealed(k, es)
  {
    assert CentralKind(k);
    hide Displaces, Recaches, CacheSound, CentralKind, Possible, KernelNext, EveryBreakHealed;
    var ks, n := States(k, es), |es|;
    var good := seq(n + 1, i requires 0 <= i <= n => CacheSound(ks[i]));
    var breaks := seq(n, i requires 0 <= i < n => Displaces(ks[i], es[i]));
    var heals := seq(n, i requires 0 <= i < n => Recaches(ks[i], es[i]));
    forall i | 0 <= i < n
      ensures !(breaks[i] && heals[i]) && good[i + 1] == if good[i] then !breaks[i] else heals[i]
    {
      RunKeepsKind(k, es, i);
      NextKeepsCache(ks[i], es[i]);
    }
    GoodIffHealed(good, breaks, heals, n);
    assert breaks[..n] == breaks && heals[..n] == heals;
  }

  /** Over every run, whatever indices are used: the cached session is null or a central session of the
      table if and only if every displacement of it has been healed, and an empty cache means that there is
      no central entry if and only if every loss has been healed. */
  lemma CentralCache(es: seq<KernelEvent>)
    requires AllPossible(EmptyKernel(), es)
    ensures
      var k := KernelRun(EmptyKernel(), es);
      && (CacheSound(k) <==> EveryDisplacementHealed(EmptyKernel(), es))
      && (CacheComplete(k) <==> EveryLossHealed(EmptyKernel(), es))
  {
    RunKeepsSound(EmptyKernel(), es);
    RunKeepsComplete(EmptyKernel(), es);
  }

  /** Every new entry of the run has an index that is not in use. */
  ghost predicate FreshIndices(k: Kernel, es: seq<KernelEvent>)
    requires AllPossible(k, es)
  {
    var ks := States(k, es);
    forall i :: 0 <= i < |es| && es[i].Adding? && Creates(es[i].sid, es[i].found) ==> es[i].uuid !in ks[i].services
  }

  /** With fresh indices the cached session is always null or a central session of the table, and non-null
      exactly when there is a central entry if and only if every loss has been healed. */
  lemma CentralCacheWithFreshIndices(es: seq<KernelEvent>)
    requires AllPossible(EmptyKernel(), es) && FreshIndices(EmptyKernel(), es)
    ensures
      var k := KernelRun(EmptyKernel(), es);
      && CacheSound(k)
      && ((k.central.Some? <==> exists u :: IsCentral(k.services, u)) <==> EveryLossHealed(EmptyKernel(), es))
  {
    RunKeepsComplete(EmptyKernel(), es);
    FreshRunKeepsSound(EmptyKernel(), es, |es|);
  }

  lemma {:induction false} FreshRunKeepsSound(k: Kernel, es: seq<KernelEvent>, n: nat)
    requires AllPossible(k, es) && FreshIndices(k, es) && n <= |es| && CacheSound(k)
    ensures CacheSound(States(k, es)[n])
  {
    if n > 0 {
      FreshRunKeepsSound(k, es, n - 1);
      var state, e := States(k, es)[n - 1], es[n - 1];
      assert CentralKind(state);
      NextKeepsCache(state, e);
      if e.Adding? {
        AddKeepsSoundIff(state, e.address, e.sid, e.found, e.session, e.uuid);
      }
    }
  }

  /** While the table never has two central entries, an empty cache always means that there is none. */
  lemma OneCentralKeepsCache(es: seq<KernelEvent>)
    requires AllPossible(EmptyKernel(), es)
    requires forall i :: 0 <= i < |es| ==> AtMostOneCentral(States(EmptyKernel(), es)[i].services)
    ensures CacheComplete(KernelRun(EmptyKernel(), es))
  {
    RunKeepsComplete(EmptyKernel(), es);
    var ks := States(EmptyKernel(), es);
    forall i | 0 <= i < |es| ensures !Loses(ks[i], es[i]) {
      RunKeepsKind(EmptyKernel(), es, i);
      OneCentralLosesNothing(ks[i], es[i]);
    }
  }

  lemma OneCentralLosesNothing(k: Kernel, e: KernelEvent)
    requires AtMostOneCentral(k.services) && CentralKind(k)
    ensures !Loses(k, e)
  {
    if Loses(k, e) {
      assert IsCentral(k.services, e.uuid);
    }
  }

  /** With two central entries the claim fails: closing the cached one forgets the other. */
  lemma TwoCentralsLoseTheCache()
    ensures
      var a, b := SessionRef(1, CENTRAL_SERVER), SessionRef(2, CENTRAL_SERVER);
      var k := Add(Add(EmptyKernel(), Address(5, 1, []), 7, None, a, 1), Address(5, 2, []), 8, None, b, 2);
      Remove(k, 2).central.None? && IsCentral(Remove(k, 2).services, 1)
  {
  }

  /// The class

  lemma AddOutcome(k: Kernel, address: Address, sid: int32, found: Option<int32>, session: SessionRef, uuid: int32)
    requires CacheSound(k) && Finds(k.services, address, found)
    ensures
      var after := Add(k, address, sid, found, session, uuid);
      && (CacheSound(after) <==> !DisplacesCentral(k, sid, found, session, uuid))
      && (uuid !in k.services ==> CacheSound(after))
      && (CacheComplete(k) ==> CacheComplete(after))
      && (Unique(k.services) ==>
            (Unique(after.services) <==> !Duplicates(k.services, address, sid, found, uuid)))
      && forall m :: Represents(k.services, m) && Unique(after.services) ==>
           Represents(after.services, MapAdd(k.services, m, address, sid, found, session, uuid))
  {
    AddKeepsCache(k, address, sid, found, session, uuid);
    AddKeepsSoundIff(k, address, sid, found, session, uuid);
    if Unique(k.services) {
      AddKeepsUniqueIff(k, address, sid, found, session, uuid);
    }
    var after := Add(k, address, sid, found, session, uuid);
    forall m | Represents(k.services, m) && Unique(after.services)
      ensures Represents(after.services, MapAdd(k.services, m, address, sid, found, session, uuid))
    {
      AddRefines(k, m, address, sid, found, session, uuid);
    }
  }

  class BSKernel {
    var connectServices: map<int32, Config>
    var centralSession: Option<SessionRef>
    var logicIDs: map<nat, int32>

    function AsKernel(): Kernel
      reads this
    {
      Kernel(connectServices, centralSession, logicIDs)
    }

    /** The cached session is null or a session of the table that leads to a central server. */
    ghost predicate Valid()
      reads this
    {
      CacheSound(AsKernel())
    }

    constructor ()
      ensures Valid() && CacheComplete(AsKernel()) && AsKernel() == EmptyKernel()
    {
      connectServices, centralSession, logicIDs := map[], None, map[];
    }

    /** A walk through the table in an arbitrary order; -1 when nothing matches, or when the entry that
        matches has that index, which a session gets when the pool has run out of indices. */
    method CheckConnectService(address: Address) returns (uuid: int32)
      ensures Finds(connectServices, address, if uuid == INVALID_UUID then None else Some(uuid))
    {
      var rest := connectServices.Keys;
      while rest != {}
        invariant rest <= connectServices.Keys
        invariant forall u :: u in connectServices && u !in rest ==> connectServices[u].address != address
        decreases |rest|
      {
        var u :| u in rest;
        if connectServices[u].address == address {
          return u;
        }
        rest := rest - {u};
      }
      return INVALID_UUID;
    }

    /** A walk for a service id. */
    method ConnectServiceSession(sid: int32) returns (r: Option<SessionRef>)
      ensures r.None? ==> forall u :: u in connectServices ==> connectServices[u].sid != sid
      ensures r.Some? ==>
                exists u :: u in connectServices
                            && connectServices[u].sid == sid && connectServices[u].session == r.value
    {
      var rest := connectServices.Keys;
      while rest != {}
        invariant rest <= connectServices.Keys
        invariant forall u :: u in connectServices && u !in rest ==> connectServices[u].sid != sid
        decreases |rest|
      {
        var u :| u in rest;
        if connectServices[u].sid == sid {
          return Some(connectServices[u].session);
        }
        rest := rest - {u};
      }
      return None;
    }

    /** A central session that is reported is cached, one that closes is not; no other report changes
        the cache. */
    method UpdateServiceConnect(session: SessionRef, state: ConnectState)
      modifies this`centralSession
      ensures AsKernel() == Notified(old(AsKernel()), session, state)
      ensures state == Close ==> centralSession != Some(session)
      ensures state != Close && session.kind == CENTRAL_SERVER ==> centralSession == Some(session)
      ensures centralSession != old(centralSession) ==>
                if state == Close then old(centralSession) == Some(session) else session.kind == CENTRAL_SERVER
    {
      if state == Close {
        if centralSession == Some(session) {
          centralSession := None;
        }
      } else if session.kind == CENTRAL_SERVER {
        centralSession := Some(session);
      }
    }

    /** A new entry, under any index, in place of the one that had it. */
    method Insert(address: Address, sid: int32, session: SessionRef, uuid: int32)
      modifies this
      ensures AsKernel() == Add(old(AsKernel()), address, sid, None, session, uuid)
      ensures old(Valid()) ==> (Valid() <==> !DisplacesCentral(old(AsKernel()), sid, None, session, uuid))
    {
      if CacheSound(AsKernel()) {
        AddKeepsSoundIff(AsKernel(), address, sid, None, session, uuid);
      }
      connectServices := connectServices[uuid := Config(address, sid, session)];
      UpdateServiceConnect(session, Connect);
    }

    /** A known entry gets a new service id, and so does its session. */
    method Reassign(known: int32, sid: int32)
      requires known in connectServices && sid != INVALID_UUID
      modifies this
      ensures forall address, session, uuid ::
                AsKernel() == Add(old(AsKernel()), address, sid, Some(known), session, uuid)
      ensures old(Valid()) ==> Valid()
    {
      var config := connectServices[known];
      if CacheSound(AsKernel()) {
        AddKeepsSoundIff(AsKernel(), config.address, sid, Some(known), config.session, known);
      }
      connectServices := connectServices[known := config.(sid := sid)];
      logicIDs := logicIDs[config.session.id := sid];
      UpdateServiceConnect(config.session, Update);
    }

    /** The parameters `session` and `uuid` are the session that `connectService` would create. The cache
        stays sound exactly unless this displaces the cached session, and the table refines the address-keyed
        map exactly unless this makes a second entry. */
    method AddNewConnect(address: Address, sid: int32, session: SessionRef, uuid: int32)
      requires Valid()
      modifies this
      ensures uuid !in old(connectServices) ==> Valid()
      ensures old(CacheComplete(AsKernel())) ==> CacheComplete(AsKernel())
      ensures exists found: Option<int32> ::
                && Finds(old(connectServices), address, found)
                && AsKernel() == Add(old(AsKernel()), address, sid, found, session, uuid)
                && (Valid() <==> !DisplacesCentral(old(AsKernel()), sid, found, session, uuid))
                && (old(Unique(connectServices)) ==>
                      (Unique(connectServices) <==> !Duplicates(old(connectServices), address, sid, found, uuid)))
                && forall m :: Represents(old(connectServices), m) && Unique(connectServices) ==>
                     Represents(connectServices, MapAdd(old(connectServices), m, address, sid, found, session, uuid))
    {
      var known := CheckConnectService(address);
      ghost var found := if known == INVALID_UUID then None else Some(known);
      AddOutcome(AsKernel(), address, sid, found, session, uuid);
      if known == INVALID_UUID || sid == INVALID_UUID {
        Insert(address, sid, session, uuid);
      } else {
        Reassign(known, sid);
      }
      assert AsKernel() == Add(old(AsKernel()), address, sid, found, session, uuid);
    }

    /** The address of the entry is gone from the address-keyed map and nothing else is; a complete cache
        stays so exactly unless this loses it. */
    method RemoveServiceSession(uuid: int32)
      modifies this
      ensures AsKernel() == Remove(old(AsKernel()), uuid)
      ensures old(Valid()) ==> Valid()
      ensures old(CacheComplete(AsKernel())) ==>
                (CacheComplete(AsKernel()) <==> !old(LosesCache(AsKernel(), uuid)))
      ensures forall m :: Represents(old(connectServices), m) ==>
                Represents(connectServices,
                  if uuid in old(connectServices) then m - {old(connectServices)[uuid].address} else m)
    {
      RemoveKeepsCache(AsKernel(), uuid);
      forall m | Represents(connectServices, m)
        ensures Represents(Remove(AsKernel(), uuid).services,
                           if uuid in connectServices then m - {connectServices[uuid].address} else m)
      {
        RemoveRefines(AsKernel(), m, uuid);
      }
      if uuid in connectServices {
        UpdateServiceConnect(connectServices[uuid].session, Close);
        connectServices := connectServices - {uuid};
      }
    }
  }
}
