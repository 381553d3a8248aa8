/** The BOOTP/DHCP/PXE server `BootpServer.handle`: access control, the lease pool, the UUID cache and
    the per-client boot state, over every sequence of requests. */
module BootServer {
  import opened Prelude

  datatype Mac = Mac(text: string)
  datatype Uuid = Uuid(text: string)

  datatype Boot = Idle | Pxe | Dhcp

  datatype Access = Open | ByMac | ByUuid | Http

  /** `acl` is the local list; `simpleDhcp` is allow_simple_dhcp. Addresses are numbers. */
  datatype Config = Config(poolStart: nat, poolCount: nat, access: Access, acl: map<string, bool>, simpleDhcp: bool)

  const DISCOVER := 1
  const REQUEST := 3

  /** What the remote access host answered, where it is asked. */
  datatype Answer = Granted(filename: string) | Refused | Broken

  /** A parsed request: `uuid` is option 97 when 17 bytes long; `address` is None for 0.0.0.0;
      `hasClass` is whether option 60 is present. */
  datatype Request = Request(
    mac: Mac, uuid: Option<Uuid>, message: Option<nat>, address: Option<nat>, hasClass: bool, answer: Answer)

  datatype Outcome = Ignored | PoolExhausted | Replied(ip: nat)

  datatype Server = Server(
    states: map<Mac, Boot>, leases: map<Mac, nat>, uuids: map<Mac, Uuid>, files: map<nat, string>)

  function Current(s: Server, mac: Mac): Boot {
    if mac in s.states then s.states[mac] else Idle
  }

  function Next(current: Boot, pxe: bool, message: Option<nat>): Boot {
    match current
    case Idle => if pxe && message == Some(DISCOVER) then Pxe else Idle
    case Pxe => if !pxe && message == Some(REQUEST) then Dhcp else Pxe
    case Dhcp => if pxe then Pxe else Dhcp
  }

  function KnownUuid(s: Server, r: Request): Option<Uuid> {
    if r.uuid.Some? then r.uuid else if r.mac in s.uuids then Some(s.uuids[r.mac]) else None
  }

  predicate Enabled(cfg: Config, item: string) {
    item in cfg.acl && cfg.acl[item]
  }

  /** Local access control, asked only for a MAC without a lease. */
  predicate Admitted(cfg: Config, s: Server, r: Request) {
    match cfg.access
    case ByMac => r.mac in s.leases || Enabled(cfg, r.mac.text)
    case ByUuid => r.mac in s.leases ||
      (KnownUuid(s, r).Some? && Enabled(cfg, KnownUuid(s, r).value.text))
    case _ => true
  }

  /** The first address of the pool, from index idx on, that no client holds. */
  function FirstFree(cfg: Config, leases: map<Mac, nat>, idx: nat): Option<nat>
    requires idx <= cfg.poolCount
    decreases cfg.poolCount - idx
  {
    if idx == cfg.poolCount then None
    else if cfg.poolStart + idx !in leases.Values then Some(cfg.poolStart + idx)
    else FirstFree(cfg, leases, idx + 1)
  }

  /** The request passed access control: lease, file, UUID and state. */
  function Serve(cfg: Config, s: Server, r: Request, next: Boot, filename: string): (Server, Outcome) {
    var lease := if r.mac in s.leases then Some(s.leases[r.mac]) else FirstFree(cfg, s.leases, 0);
    if r.address.None? && lease.None? then (s, PoolExhausted) else
    var ip := if r.address.Some? then r.address.value else lease.value;
    var leased := if r.address.Some? then s else s.(leases := s.leases[r.mac := ip]);
    if r.message != Some(DISCOVER) && r.message != Some(REQUEST) then (leased, Ignored) else
    var filed := if filename == "" then leased else leased.(files := leased.files[ip := filename]);
    if r.uuid.Some? && !r.hasClass then (filed, Ignored) else
    var cached := if r.uuid.Some? then filed.(uuids := filed.uuids[r.mac := r.uuid.value]) else filed;
    (cached.(states := cached.states[r.mac := next]), Replied(ip))
  }

  /** One datagram. */
  function Handle(cfg: Config, s: Server, r: Request): (Server, Outcome) {
    var current := Current(s, r.mac);
    var next := Next(current, r.uuid.Some?, r.message);
    var known := s.(states := s.states[r.mac := current]);
    if next == Idle && !cfg.simpleDhcp then (known, Ignored)
    else if cfg.access == Http && current != next then
      match r.answer
      case Granted(filename) => Serve(cfg, known, r, next, filename)
      case Refused => (known.(states := known.states[r.mac := Idle]), Ignored)
      case Broken => (known, Ignored)
    else if !Admitted(cfg, known, r) then (known, Ignored)
    else Serve(cfg, known, r, next, "")
  }

  function Run(cfg: Config, requests: seq<Request>): Server {
    if requests == [] then Server(map[], map[], map[], map[])
    else Handle(cfg, Run(cfg, requests[..|requests| - 1]), requests[|requests| - 1]).0
  }

  /** What request i of the run comes to. */
  function OutcomeAt(cfg: Config, requests: seq<Request>, i: nat): Outcome
    requires i < |requests|
  {
    Handle(cfg, Run(cfg, requests[..i]), requests[i]).1
  }

  lemma OneMoreHandled(cfg: Config, requests: seq<Request>, n: nat)
    requires n < |requests|
    ensures (Run(cfg, requests[..n + 1]), OutcomeAt(cfg, requests, n))
            == Handle(cfg, Run(cfg, requests[..n]), requests[n])
  {
    assert requests[..n + 1][..n] == requests[..n];
  }

  // ---- the server object ----

  class BootpServer {
    const cfg: Config
    var states: map<Mac, Boot>
    var leases: map<Mac, nat>
    var uuids: map<Mac, Uuid>
    var files: map<nat, string>

    function View(): Server
      reads this
    {
      Server(states, leases, uuids, files)
    }

    constructor (cfg: Config)
      ensures this.cfg == cfg && View() == Run(cfg, [])
    {
      this.cfg, states, leases, uuids, files := cfg, map[], map[], map[], map[];
    }

    /** The pool loop: the lowest address nobody holds. */
    method Allocate() returns (ip: Option<nat>)
      ensures ip == FirstFree(cfg, leases, 0)
      ensures ip.Some? ==> ip.value !in leases.Values && cfg.poolStart <= ip.value < cfg.poolStart + cfg.poolCount
      ensures ip.Some? ==> forall x :: cfg.poolStart <= x < ip.value ==> x in leases.Values
      ensures ip.None? ==> forall x :: cfg.poolStart <= x < cfg.poolStart + cfg.poolCount ==> x in leases.Values
    {
      for idx := 0 to cfg.poolCount
        invariant FirstFree(cfg, leases, 0) == FirstFree(cfg, leases, idx)
        invariant forall x :: cfg.poolStart <= x < cfg.poolStart + idx ==> x in leases.Values
      {
        if cfg.poolStart + idx !in leases.Values {
          return Some(cfg.poolStart + idx);
        }
      }
      ip := None;
    }

    method Answer(r: Request, next: Boot, filename: string) returns (outcome: Outcome)
      modifies this
      ensures (View(), outcome) == Serve(cfg, old(View()), r, next, filename)
    {
      var ip;
      if r.address.None? {
        if r.mac in leases {
          ip := leases[r.mac];
          assert leases == leases[r.mac := ip];
        } else {
          var lease := Allocate();
          if lease.None? {
            return PoolExhausted;
          }
          ip := lease.value;
          leases := leases[r.mac := ip];
        }
      } else {
        ip := r.address.value;
      }
      if r.message != Some(DISCOVER) && r.message != Some(REQUEST) {
        return Ignored;
      }
      if filename != "" {
        files := files[ip := filename];
      }
      if r.uuid.Some? {
        if !r.hasClass {
          return Ignored;
        }
        uuids := uuids[r.mac := r.uuid.value];
      }
      states := states[r.mac := next];
      outcome := Replied(ip);
    }

    method HandleRequest(r: Request) returns (outcome: Outcome)
      modifies this
      ensures (View(), outcome) == Handle(cfg, old(View()), r)
    {
      var current := Current(View(), r.mac);
      states := states[r.mac := current];
      var next := Next(current, r.uuid.Some?, r.message);
      if next == Idle && !cfg.simpleDhcp {
        return Ignored;
      }
      if cfg.access == Http && current != next {
        match r.answer {
          case Granted(filename) => outcome := Answer(r, next, filename);
          case Refused =>
            states := states[r.mac := Idle];
            outcome := Ignored;
          case Broken => outcome := Ignored;
        }
      } else if !Admitted(cfg, View(), r) {
        outcome := Ignored;
      } else {
        outcome := Answer(r, next, "");
      }
    }

    /** The next request of a run. */
    method HandleNext(ghost requests: seq<Request>, ghost n: nat, r: Request) returns (outcome: Outcome)
      requires n < |requests| && r == requests[n] && View() == Run(cfg, requests[..n])
      modifies this
      ensures View() == Run(cfg, requests[..n + 1]) && outcome == OutcomeAt(cfg, requests, n)
    {
      OneMoreHandled(cfg, requests, n);
      outcome := HandleRequest(r);
    }
  }

  // ---- leases ----

  predicate Injective(leases: map<Mac, nat>) {
    forall a, b :: a in leases && b in leases && leases[a] == leases[b] ==> a == b
  }

  ghost predicate LeaseInv(cfg: Config, s: Server) {
    && Injective(s.leases)
    && (forall m :: m in s.leases ==> cfg.poolStart <= s.leases[m] < cfg.poolStart + cfg.poolCount)
    && (cfg.access == ByMac ==> forall m :: m in s.leases ==> Enabled(cfg, m.text))
  }

  lemma {:induction false} FirstFreeIsFree(cfg: Config, leases: map<Mac, nat>, idx: nat)
    requires idx <= cfg.poolCount
    ensures var f := FirstFree(cfg, leases, idx);
            && (f.Some? ==> f.value !in leases.Values && cfg.poolStart <= f.value < cfg.poolStart + cfg.poolCount)
            && (f.Some? ==> forall x :: cfg.poolStart + idx <= x < f.value ==> x in leases.Values)
            && (f.None? <==>
                  forall x :: cfg.poolStart + idx <= x < cfg.poolStart + cfg.poolCount ==> x in leases.Values)
    decreases cfg.poolCount - idx
  {
    if idx < cfg.poolCount {
      FirstFreeIsFree(cfg, leases, idx + 1);
    }
  }

  /** Every lease of a is in b unchanged. */
  ghost predicate Extends(a: map<Mac, nat>, b: map<Mac, nat>) {
    forall m :: m in a ==> m in b && b[m] == a[m]
  }

  lemma GivingOneOut(cfg: Config, s: Server, t: Server, mac: Mac, ip: nat)
    requires LeaseInv(cfg, s) && mac !in s.leases && ip !in s.leases.Values
    requires cfg.poolStart <= ip < cfg.poolStart + cfg.poolCount
    requires cfg.access == ByMac ==> Enabled(cfg, mac.text)
    requires t.leases == s.leases[mac := ip]
    ensures LeaseInv(cfg, t) && Extends(s.leases, t.leases)
  {
    assert forall m :: m in s.leases ==> s.leases[m] in s.leases.Values;
  }

  /** What serving does to the leases: nothing, or one address for a client without one. */
  lemma ServeLeases(cfg: Config, s: Server, r: Request, next: Boot, filename: string)
    ensures var t, free := Serve(cfg, s, r, next, filename).0, FirstFree(cfg, s.leases, 0);
            || t.leases == s.leases
            || (r.mac !in s.leases && free.Some? && t.leases == s.leases[r.mac := free.value])
  {
    if r.mac in s.leases {
      assert s.leases[r.mac := s.leases[r.mac]] == s.leases;
    }
  }

  lemma ServeKeepsLeases(cfg: Config, s: Server, r: Request, next: Boot, filename: string)
    requires LeaseInv(cfg, s)
    requires cfg.access == ByMac ==> r.mac in s.leases || Enabled(cfg, r.mac.text)
    ensures var t := Serve(cfg, s, r, next, filename).0;
            LeaseInv(cfg, t) && Extends(s.leases, t.leases)
  {
    var t := Serve(cfg, s, r, next, filename).0;
    ServeLeases(cfg, s, r, next, filename);
    if t.leases != s.leases {
      FirstFreeIsFree(cfg, s.leases, 0);
      GivingOneOut(cfg, s, t, r.mac, FirstFree(cfg, s.leases, 0).value);
    }
  }

  lemma HandleKeepsLeases(cfg: Config, s: Server, r: Request)
    requires LeaseInv(cfg, s)
    ensures var t := Handle(cfg, s, r).0;
            LeaseInv(cfg, t) && Extends(s.leases, t.leases)
  {
    var current := Current(s, r.mac);
    var next := Next(current, r.uuid.Some?, r.message);
    var known := s.(states := s.states[r.mac := current]);
    if Admitted(cfg, known, r) {
      ServeKeepsLeases(cfg, known, r, next, if r.answer.Granted? then r.answer.filename else "");
      ServeKeepsLeases(cfg, known, r, next, "");
    }
  }

  /** Over every run leases are injective, inside the pool, and in MAC mode only for enabled MACs. */
  lemma {:induction false} LeasesAreSound(cfg: Config, requests: seq<Request>)
    ensures LeaseInv(cfg, Run(cfg, requests))
  {
    if requests != [] {
      LeasesAreSound(cfg, requests[..|requests| - 1]);
      HandleKeepsLeases(cfg, Run(cfg, requests[..|requests| - 1]), requests[|requests| - 1]);
    }
  }

  lemma OneMoreRequest(cfg: Config, requests: seq<Request>, r: Request)
    ensures Extends(Run(cfg, requests).leases, Run(cfg, requests + [r]).leases)
  {
    LeasesAreSound(cfg, requests);
    HandleKeepsLeases(cfg, Run(cfg, requests), r);
    assert (requests + [r])[..|requests|] == requests;
  }

  /** Leases once given stay as they are for the rest of the run. */
  lemma {:induction false} LeasesAreForever(cfg: Config, before: seq<Request>, after: seq<Request>)
    ensures Extends(Run(cfg, before).leases, Run(cfg, before + after).leases)
  {
    if after == [] {
      assert before + after == before;
    } else {
      var init, r := after[..|after| - 1], after[|after| - 1];
      LeasesAreForever(cfg, before, init);
      OneMoreRequest(cfg, before + init, r);
      assert before + after == before + init + [r];
    }
  }

  // ---- when the pool is exhausted ----

  function Pool(start: nat, count: nat): set<nat> {
    if count == 0 then {} else Pool(start, count - 1) + {start + count - 1}
  }

  lemma {:induction false} PoolSize(start: nat, count: nat)
    ensures |Pool(start, count)| == count
    ensures forall x :: x in Pool(start, count) <==> start <= x < start + count
  {
    if count > 0 {
      PoolSize(start, count - 1);
    }
  }

  lemma WithoutOne(leases: map<Mac, nat>, m: Mac)
    requires Injective(leases) && m in leases
    ensures leases.Values == (leases - {m}).Values + {leases[m]} && leases[m] !in (leases - {m}).Values
  {
    var rest := leases - {m};
    forall v | v in leases.Values ensures v in rest.Values + {leases[m]} {
      var a :| a in leases && leases[a] == v;
      assert a != m ==> a in rest && rest[a] == v;
    }
  }

  lemma {:induction false} ValuesSize(leases: map<Mac, nat>)
    requires Injective(leases)
    ensures |leases.Values| == |leases|
    decreases |leases|
  {
    if |leases| == 0 {
      assert leases.Values == {};
    } else {
      var m :| m in leases;
      var rest := leases - {m};
      assert leases.Keys == rest.Keys + {m} && m !in rest.Keys;
      ValuesSize(rest);
      WithoutOne(leases, m);
    }
  }

  /** No free address is found exactly when as many leases are out as the pool has addresses. */
  lemma ExhaustedIff(cfg: Config, leases: map<Mac, nat>)
    requires Injective(leases)
    requires forall m :: m in leases ==> cfg.poolStart <= leases[m] < cfg.poolStart + cfg.poolCount
    ensures FirstFree(cfg, leases, 0).None? <==> |leases| == cfg.poolCount
  {
    FirstFreeIsFree(cfg, leases, 0);
    var pool := Pool(cfg.poolStart, cfg.poolCount);
    PoolSize(cfg.poolStart, cfg.poolCount);
    ValuesSize(leases);
    assert leases.Values <= pool;
    SubsetSize(leases.Values, pool);
    assert FirstFree(cfg, leases, 0).None? <==> pool <= leases.Values;
    assert pool <= leases.Values <==> pool == leases.Values;
  }

  /** There are never more leases than addresses. */
  lemma LeasesFit(cfg: Config, leases: map<Mac, nat>)
    requires Injective(leases)
    requires forall m :: m in leases ==> cfg.poolStart <= leases[m] < cfg.poolStart + cfg.poolCount
    ensures |leases| <= cfg.poolCount
  {
    PoolSize(cfg.poolStart, cfg.poolCount);
    ValuesSize(leases);
    assert leases.Values <= Pool(cfg.poolStart, cfg.poolCount);
    SubsetSize(leases.Values, Pool(cfg.poolStart, cfg.poolCount));
  }

  /** The request gets past the state test and access control. */
  predicate Passes(cfg: Config, s: Server, r: Request) {
    var current := Current(s, r.mac);
    var next := Next(current, r.uuid.Some?, r.message);
    && (next != Idle || cfg.simpleDhcp)
    && (cfg.access == Http && current != next ==> r.answer.Granted?)
    && Admitted(cfg, s, r)
  }

  /** In every run, a request fails for want of an address exactly when it is let through, names no
      address, comes from a MAC without a lease, and poolCount leases are out. */
  lemma PoolExhaustedIff(cfg: Config, requests: seq<Request>, r: Request)
    ensures var s := Run(cfg, requests);
            Handle(cfg, s, r).1.PoolExhausted? <==>
              Passes(cfg, s, r) && r.address.None? && r.mac !in s.leases && |s.leases| == cfg.poolCount
  {
    LeasesAreSound(cfg, requests);
    ExhaustedIff(cfg, Run(cfg, requests).leases);
  }

  // ---- boot states ----

  ghost predicate StateInv(s: Server) {
    forall m :: m in s.states && s.states[m] != Idle ==> m in s.uuids
  }

  lemma ServeKeepsStates(cfg: Config, s: Server, r: Request, next: Boot, filename: string)
    requires StateInv(s) && (next != Idle ==> r.uuid.Some? || r.mac in s.uuids)
    ensures StateInv(Serve(cfg, s, r, next, filename).0)
  {
  }

  lemma HandleKeepsStates(cfg: Config, s: Server, r: Request)
    requires StateInv(s)
    ensures StateInv(Handle(cfg, s, r).0)
  {
    var current := Current(s, r.mac);
    var next := Next(current, r.uuid.Some?, r.message);
    var known := s.(states := s.states[r.mac := current]);
    ServeKeepsStates(cfg, known, r, next, if r.answer.Granted? then r.answer.filename else "");
    ServeKeepsStates(cfg, known, r, next, "");
  }

  /** In every run a client that is not idle has a cached UUID. */
  lemma {:induction false} BootingHasUuid(cfg: Config, requests: seq<Request>)
    ensures StateInv(Run(cfg, requests))
  {
    if requests != [] {
      BootingHasUuid(cfg, requests[..|requests| - 1]);
      HandleKeepsStates(cfg, Run(cfg, requests[..|requests| - 1]), requests[|requests| - 1]);
    }
  }

  /** What serving does to the boot states: the new state goes in exactly with the reply. */
  lemma ServeStates(cfg: Config, s: Server, r: Request, next: Boot, filename: string)
    ensures var (t, outcome) := Serve(cfg, s, r, next, filename);
            t.states == if outcome.Replied? then s.states[r.mac := next] else s.states
  {
  }

  /** What one request does to the boot states. */
  lemma HandleStates(cfg: Config, s: Server, r: Request)
    ensures var (t, outcome) := Handle(cfg, s, r);
            var a := Current(s, r.mac);
            var b := if outcome.Replied? then Next(a, r.uuid.Some?, r.message) else a;
            || t.states == s.states[r.mac := b]
            || (t.states == s.states[r.mac := Idle] && cfg.access == Http && r.answer.Refused?)
  {
    var current := Current(s, r.mac);
    var next := Next(current, r.uuid.Some?, r.message);
    var known := s.(states := s.states[r.mac := current]);
    ServeStates(cfg, known, r, next, if r.answer.Granted? then r.answer.filename else "");
    ServeStates(cfg, known, r, next, "");
  }

  /** One request changes at most its own client's state: to Pxe only by a PXE request, to Dhcp only
      from Pxe by a non-PXE REQUEST, and, apart from a refusal by the remote host, only with a reply. */
  lemma StateAdvances(cfg: Config, s: Server, r: Request)
    ensures var (t, outcome) := Handle(cfg, s, r);
            var a, b := Current(s, r.mac), Current(t, r.mac);
            && (forall m :: m != r.mac ==> Current(t, m) == Current(s, m))
            && (a != b && b == Dhcp ==> a == Pxe && r.uuid.None? && r.message == Some(REQUEST))
            && (a != b && b == Pxe ==> r.uuid.Some? && (a == Idle ==> r.message == Some(DISCOVER)))
            && (a != b ==> outcome.Replied? || (b == Idle && cfg.access == Http && r.answer.Refused?))
  {
    HandleStates(cfg, s, r);
  }

  /** Request i of the run is from m and was answered. */
  predicate Answered(cfg: Config, requests: seq<Request>, i: nat, m: Mac) {
    i < |requests| && requests[i].mac == m
    && OutcomeAt(cfg, requests, i).Replied?
  }

  /** An answered PXE request of m among the requests. */
  ghost predicate PxeAnswered(cfg: Config, requests: seq<Request>, m: Mac) {
    exists i: nat :: Answered(cfg, requests, i, m) && requests[i].uuid.Some?
  }

  /** An answered non-PXE REQUEST of m, after an answered PXE request of m. */
  ghost predicate HandedOver(cfg: Config, requests: seq<Request>, m: Mac) {
    exists j: nat :: Answered(cfg, requests, j, m) && requests[j].uuid.None?
      && requests[j].message == Some(REQUEST) && PxeAnswered(cfg, requests[..j], m)
  }

  lemma SameAnswer(cfg: Config, requests: seq<Request>, i: nat, m: Mac)
    requires i < |requests| - 1
    ensures var before := requests[..|requests| - 1];
            && before[i] == requests[i] && before[..i] == requests[..i]
            && (Answered(cfg, before, i, m) <==> Answered(cfg, requests, i, m))
  {
    assert requests[..|requests| - 1][..i] == requests[..i];
  }

  lemma AnsweredGrows(cfg: Config, requests: seq<Request>, m: Mac)
    requires requests != []
    ensures var before := requests[..|requests| - 1];
            && (PxeAnswered(cfg, before, m) ==> PxeAnswered(cfg, requests, m))
            && (HandedOver(cfg, before, m) ==> HandedOver(cfg, requests, m))
  {
    var before := requests[..|requests| - 1];
    if PxeAnswered(cfg, before, m) {
      var i: nat :| Answered(cfg, before, i, m) && before[i].uuid.Some?;
      SameAnswer(cfg, requests, i, m);
    }
    if HandedOver(cfg, before, m) {
      var j: nat :| Answered(cfg, before, j, m) && before[j].uuid.None?
        && before[j].message == Some(REQUEST) && PxeAnswered(cfg, before[..j], m);
      SameAnswer(cfg, requests, j, m);
    }
  }

  /** In every run, a client in Pxe was answered a PXE request, and a client in Dhcp was answered a PXE
      request and, later, a non-PXE REQUEST. */
  lemma {:induction false} StateHasHistory(cfg: Config, requests: seq<Request>, m: Mac)
    ensures var state := Current(Run(cfg, requests), m);
            && (state == Pxe ==> PxeAnswered(cfg, requests, m))
            && (state == Dhcp ==> HandedOver(cfg, requests, m))
  {
    if requests != [] {
      var k := |requests| - 1;
      var before, r := requests[..k], requests[k];
      StateHasHistory(cfg, before, m);
      AnsweredGrows(cfg, requests, m);
      StateAdvances(cfg, Run(cfg, before), r);
      if Current(Run(cfg, requests), m) != Current(Run(cfg, before), m) && Current(Run(cfg, requests), m) != Idle {
        assert Answered(cfg, requests, k, m);
      }
    }
  }

  // ---- who is answered, and with which address ----

  /** The request asks for the next boot state: a PXE DISCOVER (1) of an idle client, a non-PXE REQUEST (3) of
      one in PXE, any PXE request of one in DHCP. */
  predicate Moves(s: Server, r: Request) {
    match Current(s, r.mac)
    case Idle => r.uuid.Some? && r.message == Some(1)
    case Pxe => r.uuid.None? && r.message == Some(3)
    case Dhcp => r.uuid.Some?
  }

  /** An idle client that stays idle is passed over, unless simple DHCP is allowed. */
  predicate Listened(cfg: Config, s: Server, r: Request) {
    cfg.simpleDhcp || Current(s, r.mac) != Idle || Moves(s, r)
  }

  /** Access control: a local list lets a client pass that has a lease or whose MAC or UUID, its own or the
      cached one, is enabled; the remote host is asked only about a change of state. */
  predicate Allowed(cfg: Config, s: Server, r: Request) {
    match cfg.access
    case Open => true
    case ByMac => r.mac in s.leases || (r.mac.text in cfg.acl && cfg.acl[r.mac.text])
    case ByUuid =>
      || r.mac in s.leases
      || (r.uuid.Some? && r.uuid.value.text in cfg.acl && cfg.acl[r.uuid.value.text])
      || (r.uuid.None? && r.mac in s.uuids && s.uuids[r.mac].text in cfg.acl && cfg.acl[s.uuids[r.mac].text])
    case Http => Moves(s, r) ==> r.answer.Granted?
  }

  lemma PassesIff(cfg: Config, s: Server, r: Request)
    ensures Passes(cfg, s, r) <==> Listened(cfg, s, r) && Allowed(cfg, s, r)
    ensures Next(Current(s, r.mac), r.uuid.Some?, r.message) != Current(s, r.mac) <==> Moves(s, r)
  {
  }

  /** A DISCOVER or REQUEST that, if it is a PXE one, carries option 60. */
  predicate WellFormed(r: Request) {
    (r.message == Some(1) || r.message == Some(3)) && (r.uuid.Some? ==> r.hasClass)
  }

  /** The address of the answer: the one the client names, or its lease. */
  predicate Tells(t: Server, r: Request, ip: nat) {
    if r.address.Some? then ip == r.address.value else r.mac in t.leases && ip == t.leases[r.mac]
  }

  lemma ServeAnswers(cfg: Config, s: Server, r: Request, next: Boot, filename: string)
    ensures var (t, outcome) := Serve(cfg, s, r, next, filename);
            && (outcome.Replied? <==>
                  (r.address.Some? || r.mac in s.leases || FirstFree(cfg, s.leases, 0).Some?) && WellFormed(r))
            && (outcome.Replied? ==> Tells(t, r, outcome.ip))
  {
  }

  lemma ServeCaches(cfg: Config, s: Server, r: Request, next: Boot, filename: string)
    ensures var (t, outcome) := Serve(cfg, s, r, next, filename);
            t.uuids == if outcome.Replied? && r.uuid.Some? then s.uuids[r.mac := r.uuid.value] else s.uuids
  {
  }

  lemma ServeFiles(cfg: Config, s: Server, r: Request, next: Boot, filename: string)
    ensures var (t, outcome) := Serve(cfg, s, r, next, filename);
            && (t.files == s.files || (r.address.Some? && t.files == s.files[r.address.value := filename])
                || (r.address.None? && r.mac in t.leases && t.files == s.files[t.leases[r.mac] := filename]))
            && (filename == "" ==> t.files == s.files)
            && (outcome.Replied? && filename != "" ==> t.files == s.files[outcome.ip := filename])
  {
  }

  /** The state after a request: the one it asks for exactly if it is answered, idle if the remote host refuses
      the change, and otherwise the old one. */
  lemma StateAfter(cfg: Config, s: Server, r: Request)
    ensures var (t, outcome) := Handle(cfg, s, r);
            var a, b := Current(s, r.mac), Current(t, r.mac);
            if Moves(s, r) && outcome.Replied? then b == if a == Pxe then Dhcp else Pxe
            else if Moves(s, r) && cfg.access == Http && r.answer.Refused? then b == Idle
            else b == a
  {
    HandleStates(cfg, s, r);
  }

  /** Handling a request is serving it, exactly when it passes. */
  lemma HandleServes(cfg: Config, s: Server, r: Request)
    ensures var current := Current(s, r.mac);
            var known := s.(states := s.states[r.mac := current]);
            var filename := if cfg.access == Http && Moves(s, r) && r.answer.Granted? then r.answer.filename else "";
            && (Passes(cfg, s, r) ==>
                  Handle(cfg, s, r) == Serve(cfg, known, r, Next(current, r.uuid.Some?, r.message), filename))
            && (!Passes(cfg, s, r) ==>
                  var (t, outcome) := Handle(cfg, s, r);
                  outcome.Ignored? && t.leases == s.leases && t.uuids == s.uuids && t.files == s.files)
  {
    PassesIff(cfg, s, r);
  }

  /** In every run a request is answered exactly when the client is listened to and allowed, the request is
      well formed, and an address is named, leased or still free; and the answer tells the address the
      client names, or else its lease. */
  lemma AnsweredIff(cfg: Config, requests: seq<Request>, r: Request)
    ensures var s := Run(cfg, requests);
            var (t, outcome) := Handle(cfg, s, r);
            && (outcome.Replied? <==>
                  && Listened(cfg, s, r) && Allowed(cfg, s, r) && WellFormed(r)
                  && (r.address.Some? || r.mac in s.leases || |s.leases| < cfg.poolCount))
            && (outcome.Replied? ==> Tells(t, r, outcome.ip))
  {
    var s := Run(cfg, requests);
    LeasesAreSound(cfg, requests);
    ExhaustedIff(cfg, s.leases);
    LeasesFit(cfg, s.leases);
    PassesIff(cfg, s, r);
    HandleServes(cfg, s, r);
    var current := Current(s, r.mac);
    ServeAnswers(cfg, s.(states := s.states[r.mac := current]), r, Next(current, r.uuid.Some?, r.message),
      if cfg.access == Http && Moves(s, r) && r.answer.Granted? then r.answer.filename else "");
  }

  /** The lowest address of the pool that nobody holds. */
  ghost predicate LowestFree(cfg: Config, leases: map<Mac, nat>, ip: nat) {
    && cfg.poolStart <= ip < cfg.poolStart + cfg.poolCount && ip !in leases.Values
    && forall x :: cfg.poolStart <= x < ip ==> x in leases.Values
  }

  lemma ServeGivesOut(cfg: Config, s: Server, r: Request, next: Boot, filename: string)
    ensures var t, free := Serve(cfg, s, r, next, filename).0, FirstFree(cfg, s.leases, 0);
            t.leases == if r.address.None? && r.mac !in s.leases && free.Some? then s.leases[r.mac := free.value]
                        else s.leases
  {
    ServeLeases(cfg, s, r, next, filename);
    if r.address.Some? {
    } else if r.mac in s.leases {
      assert s.leases[r.mac := s.leases[r.mac]] == s.leases;
    }
  }

  /** In every run a request gives out an address exactly when its client is listened to and allowed, has no
      lease, names no address, and one is free: then the lowest free one, and to nobody else. */
  lemma GivenOutIff(cfg: Config, requests: seq<Request>, r: Request)
    ensures var s := Run(cfg, requests);
            var t := Handle(cfg, s, r).0;
            if Listened(cfg, s, r) && Allowed(cfg, s, r) && r.address.None? && r.mac !in s.leases
               && |s.leases| < cfg.poolCount
            then exists ip :: LowestFree(cfg, s.leases, ip) && t.leases == s.leases[r.mac := ip]
            else t.leases == s.leases
  {
    var s := Run(cfg, requests);
    LeasesAreSound(cfg, requests);
    ExhaustedIff(cfg, s.leases);
    LeasesFit(cfg, s.leases);
    PassesIff(cfg, s, r);
    HandleServes(cfg, s, r);
    var current := Current(s, r.mac);
    ServeGivesOut(cfg, s.(states := s.states[r.mac := current]), r, Next(current, r.uuid.Some?, r.message),
      if cfg.access == Http && Moves(s, r) && r.answer.Granted? then r.answer.filename else "");
    FirstFreeIsFree(cfg, s.leases, 0);
    var free := FirstFree(cfg, s.leases, 0);
    assert free.Some? ==> LowestFree(cfg, s.leases, free.value);
  }

  /** A UUID is cached exactly with the answer to a PXE request, and a boot file remembered exactly for the
      address of a request that changed the state with the remote host's consent. */
  lemma Remembered(cfg: Config, s: Server, r: Request)
    ensures var (t, outcome) := Handle(cfg, s, r);
            && t.uuids == (if outcome.Replied? && r.uuid.Some? then s.uuids[r.mac := r.uuid.value] else s.uuids)
            && (t.files != s.files ==>
                  && cfg.access == Http && Moves(s, r) && r.answer.Granted?
                  && exists ip :: Tells(t, r, ip) && t.files == s.files[ip := r.answer.filename])
            && (outcome.Replied? && cfg.access == Http && Moves(s, r) && r.answer.Granted?
                && r.answer.filename != "" ==>
                  t.files == s.files[outcome.ip := r.answer.filename])
  {
    HandleServes(cfg, s, r);
    PassesIff(cfg, s, r);
    var current := Current(s, r.mac);
    var known := s.(states := s.states[r.mac := current]);
    var next := Next(current, r.uuid.Some?, r.message);
    var filename := if cfg.access == Http && Moves(s, r) && r.answer.Granted? then r.answer.filename else "";
    ServeCaches(cfg, known, r, next, filename);
    ServeFiles(cfg, known, r, next, filename);
    var t := Handle(cfg, s, r).0;
    if t.files != s.files {
      assert Tells(t, r, if r.address.Some? then r.address.value else t.leases[r.mac]);
    }
  }

  /** In every run, whenever a client that names no address was answered, it was told the address it has a
      lease for at the end. */
  lemma ToldItsLease(cfg: Config, requests: seq<Request>, i: nat, m: Mac)
    requires Answered(cfg, requests, i, m) && requests[i].address.None?
    ensures var s := Run(cfg, requests);
            m in s.leases && OutcomeAt(cfg, requests, i) == Replied(s.leases[m])
  {
    AnsweredIff(cfg, requests[..i], requests[i]);
    assert requests[..i + 1] == requests[..i] + [requests[i]];
    assert requests[..i + 1][..i] == requests[..i];
    LeasesAreForever(cfg, requests[..i + 1], requests[i + 1..]);
    assert requests == requests[..i + 1] + requests[i + 1..];
  }

  /** In every run the same client is always told the same address, and different clients different ones. */
  lemma AddressesIdentify(cfg: Config, requests: seq<Request>, i: nat, j: nat)
    requires i < |requests| && Answered(cfg, requests, i, requests[i].mac) && requests[i].address.None?
    requires j < |requests| && Answered(cfg, requests, j, requests[j].mac) && requests[j].address.None?
    ensures OutcomeAt(cfg, requests, i) == OutcomeAt(cfg, requests, j) <==> requests[i].mac == requests[j].mac
  {
    ToldItsLease(cfg, requests, i, requests[i].mac);
    ToldItsLease(cfg, requests, j, requests[j].mac);
    LeasesAreSound(cfg, requests);
  }

  /** The object over any sequence of requests, from its construction: it holds what the run says, so
      everything proved of runs is proved of it, and so are its replies. */
  method ServeAll(cfg: Config, requests: seq<Request>) returns (server: BootpServer, outcomes: seq<Outcome>)
    ensures server.cfg == cfg && server.View() == Run(cfg, requests)
    ensures LeaseInv(cfg, server.View()) && StateInv(server.View())
    ensures |outcomes| == |requests|
    ensures forall i :: 0 <= i < |requests| ==> outcomes[i] == OutcomeAt(cfg, requests, i)
  {
    server := new BootpServer(cfg);
    outcomes := [];
    for n := 0 to |requests|
      invariant fresh(server) && server.cfg == cfg && server.View() == Run(cfg, requests[..n]) && |outcomes| == n
      invariant forall i :: 0 <= i < n ==> outcomes[i] == OutcomeAt(cfg, requests, i)
    {
      var outcome := server.HandleNext(requests, n, requests[n]);
      outcomes := outcomes + [outcome];
    }
    assert requests[..|requests|] == requests;
    LeasesAreSound(cfg, requests);
    BootingHasUuid(cfg, requests);
  }
}
