/** The one-shot PXE permission that the access-control server (addacl/delacl) and the DHCP server
    share, per machine address. */
module OneShotPxe {
  import opened Prelude

  datatype Mac = Mac(text: string)

  datatype File = Real | Refusal

  /** `acl` is the dictionary the two servers share; `bootfile` is the DHCP server's own. */
  datatype State = State(acl: set<Mac>, bootfile: map<Mac, File>)

  /** `pxe` is whether the packet's vendor class starts with PXEClient; `hasIp` whether an address
      was found for it (without one the handlers return at once). */
  datatype Event =
    | AddAcl(mac: Mac)
    | DelAcl(mac: Mac)
    | Discover(mac: Mac, pxe: bool, hasIp: bool)
    | Request(mac: Mac, pxe: bool, hasIp: bool)

  /** The event reaches the PXE branch of its handler. */
  predicate Handled(e: Event) {
    (e.Discover? || e.Request?) && e.pxe && e.hasIp
  }

  function Step(s: State, e: Event): State {
    match e
    case AddAcl(m) => s.(acl := s.acl + {m})
    case DelAcl(m) => s.(acl := s.acl - {m})
    case Discover(m, _, _) =>
      if Handled(e) then s.(bootfile := s.bootfile[m := if m in s.acl then Real else Refusal]) else s
    case Request(m, _, _) => if Handled(e) then s.(acl := s.acl - {m}) else s
  }

  /** The file name in the reply; a Request with no earlier Discover raises after the deletion. */
  function Offered(s: State, e: Event): Option<File> {
    if !Handled(e) then None
    else if e.Discover? then Some(if e.mac in s.acl then Real else Refusal)
    else if e.mac in s.bootfile then Some(s.bootfile[e.mac]) else None
  }

  function Run(events: seq<Event>): State {
    if events == [] then State({}, map[]) else Step(Run(events[..|events| - 1]), events[|events| - 1])
  }

  /** The dictionaries and their handlers. */
  class PxeServices {
    var acl: set<Mac>
    var bootfile: map<Mac, File>

    function View(): State
      reads this
    {
      State(acl, bootfile)
    }

    constructor ()
      ensures View() == Run([])
    {
      acl, bootfile := {}, map[];
    }

    method ProcessAclRequest(add: bool, mac: Mac)
      modifies this
      ensures View() == Step(old(View()), if add then AddAcl(mac) else DelAcl(mac))
    {
      if add {
        acl := acl + {mac};
      } else if mac in acl {
        acl := acl - {mac};
      }
    }

    method HandleDhcpDiscover(mac: Mac, pxe: bool, hasIp: bool) returns (file: Option<File>)
      modifies this
      ensures View() == Step(old(View()), Discover(mac, pxe, hasIp))
      ensures file == Offered(old(View()), Discover(mac, pxe, hasIp))
    {
      if !hasIp || !pxe {
        return None;
      }
      if mac !in acl {
        bootfile := bootfile[mac := Refusal];
      } else {
        bootfile := bootfile[mac := Real];
      }
      file := Some(bootfile[mac]);
    }

    method HandleDhcpRequest(mac: Mac, pxe: bool, hasIp: bool) returns (file: Option<File>)
      modifies this
      ensures View() == Step(old(View()), Request(mac, pxe, hasIp))
      ensures file == Offered(old(View()), Request(mac, pxe, hasIp))
    {
      if !hasIp || !pxe {
        return None;
      }
      if mac in acl {
        acl := acl - {mac};
      }
      file := if mac in bootfile then Some(bootfile[mac]) else None;
    }

    /** Any one command or packet. */
    method Handle(e: Event) returns (file: Option<File>)
      modifies this
      ensures View() == Step(old(View()), e) && file == Offered(old(View()), e)
    {
      file := None;
      match e {
        case AddAcl(m) => ProcessAclRequest(true, m);
        case DelAcl(m) => ProcessAclRequest(false, m);
        case Discover(m, pxe, hasIp) => file := HandleDhcpDiscover(m, pxe, hasIp);
        case Request(m, pxe, hasIp) => file := HandleDhcpRequest(m, pxe, hasIp);
      }
    }
  }

  // ---- counting rounds ----

  function Adds(mac: Mac, events: seq<Event>): nat {
    if events == [] then 0
    else Adds(mac, events[..|events| - 1]) + if events[|events| - 1] == AddAcl(mac) then 1 else 0
  }

  /** The last PXE Discover was offered the real file and no PXE Request came since. */
  predicate Armed(mac: Mac, events: seq<Event>) {
    events != [] &&
    var before, e := events[..|events| - 1], events[|events| - 1];
    if Handled(e) && e.mac == mac
    then e.Discover? && Offered(Run(before), e) == Some(Real)
    else Armed(mac, before)
  }

  /** Discovers offered the real file and followed by a PXE Request. */
  function Rounds(mac: Mac, events: seq<Event>): nat {
    if events == [] then 0 else
    var before, e := events[..|events| - 1], events[|events| - 1];
    Rounds(mac, before) + if Handled(e) && e.Request? && e.mac == mac && Armed(mac, before) then 1 else 0
  }

  /** A pending permission is already paid for. */
  lemma {:induction false} RoundsArePaid(mac: Mac, events: seq<Event>)
    ensures Rounds(mac, events) + (if Armed(mac, events) || mac in Run(events).acl then 1 else 0)
            <= Adds(mac, events)
  {
    if events != [] {
      RoundsArePaid(mac, events[..|events| - 1]);
    }
  }

  /** In every run a machine completes no more network boots than it was granted. */
  lemma RoundsAtMostAdds(mac: Mac, events: seq<Event>)
    ensures Rounds(mac, events) <= Adds(mac, events)
  {
    RoundsArePaid(mac, events);
  }

  /** The event takes the permission away. */
  predicate Revokes(mac: Mac, e: Event) {
    e == DelAcl(mac) || (Handled(e) && e.Request? && e.mac == mac)
  }

  /** There is a grant with no revocation after it. */
  ghost predicate GrantStands(mac: Mac, events: seq<Event>) {
    exists i :: 0 <= i < |events| && events[i] == AddAcl(mac)
      && forall j :: i < j < |events| ==> !Revokes(mac, events[j])
  }

  /** A PXE Discover is offered the real file exactly when the last grant was not used or withdrawn. */
  lemma {:induction false} OfferedRealIff(mac: Mac, events: seq<Event>)
    ensures mac in Run(events).acl <==> GrantStands(mac, events)
    ensures Offered(Run(events), Discover(mac, true, true)) == Some(Real) <==> GrantStands(mac, events)
  {
    if events != [] {
      var before, e := events[..|events| - 1], events[|events| - 1];
      OfferedRealIff(mac, before);
      if GrantStands(mac, before) && !Revokes(mac, e) {
        var i :| 0 <= i < |before| && before[i] == AddAcl(mac)
          && forall j :: i < j < |before| ==> !Revokes(mac, before[j]);
        assert events[i] == AddAcl(mac);
        assert forall j :: i < j < |events| ==> !Revokes(mac, events[j]);
      }
      if GrantStands(mac, events) && e != AddAcl(mac) {
        var i :| 0 <= i < |events| && events[i] == AddAcl(mac)
          && forall j :: i < j < |events| ==> !Revokes(mac, events[j]);
        assert before[i] == AddAcl(mac);
        assert forall j :: i < j < |before| ==> !Revokes(mac, before[j]);
        assert !Revokes(mac, events[|events| - 1]);
      }
      if e == AddAcl(mac) {
        assert events[|events| - 1] == AddAcl(mac);
      }
    }
  }

  /** After a PXE Request, every PXE Discover before the next grant is offered the refusal name. */
  lemma RefusedAfterRequest(mac: Mac, before: seq<Event>, after: seq<Event>, discover: Event)
    requires before != [] && before[|before| - 1] == Request(mac, true, true)
    requires forall e :: e in after ==> e != AddAcl(mac)
    requires discover == Discover(mac, true, true)
    ensures Offered(Run(before + after), discover) == Some(Refusal)
  {
    var all := before + after;
    OfferedRealIff(mac, all);
    var used := |before| - 1;
    assert Revokes(mac, all[used]);
    assert forall k :: |before| <= k < |all| ==> all[k] == after[k - |before|];
    assert forall k :: 0 <= k < |after| ==> after[k] in after;
    forall i | 0 <= i < |all| && all[i] == AddAcl(mac) ensures i < used {
    }
  }

  // ---- what a Request is answered ----

  predicate IsDiscover(mac: Mac, e: Event) {
    Handled(e) && e.Discover? && e.mac == mac
  }

  /** Event i is the machine's last PXE Discover. */
  ghost predicate LastDiscover(mac: Mac, events: seq<Event>, i: nat) {
    i < |events| && IsDiscover(mac, events[i])
    && forall j :: i < j < |events| ==> !IsDiscover(mac, events[j])
  }

  lemma DiscoverGrows(mac: Mac, events: seq<Event>, i: nat)
    requires events != [] && i < |events| - 1 && !IsDiscover(mac, events[|events| - 1])
    ensures var before := events[..|events| - 1];
            before[..i] == events[..i] && (LastDiscover(mac, before, i) <==> LastDiscover(mac, events, i))
  {
    var before := events[..|events| - 1];
    assert forall j :: 0 <= j < |before| ==> before[j] == events[j];
    if LastDiscover(mac, before, i) {
      forall j | i < j < |events| ensures !IsDiscover(mac, events[j]) {
        assert j < |before| ==> before[j] == events[j];
      }
    }
  }

  /** A PXE Request is answered with the file the last PXE Discover was offered, however often it is
      repeated: nothing takes that file back. */
  lemma {:induction false} RequestRepeats(mac: Mac, events: seq<Event>, file: File)
    ensures Offered(Run(events), Request(mac, true, true)) == Some(file) <==>
            exists i: nat :: LastDiscover(mac, events, i) && Offered(Run(events[..i]), events[i]) == Some(file)
  {
    if events != [] {
      var n := |events| - 1;
      var before, e := events[..n], events[n];
      RequestRepeats(mac, before, file);
      if IsDiscover(mac, e) {
        assert LastDiscover(mac, events, n);
        assert forall i: nat :: LastDiscover(mac, events, i) ==> i == n;
      } else {
        assert e.Discover? && Handled(e) ==> e.mac != mac;
        if i: nat :| LastDiscover(mac, before, i) && Offered(Run(before[..i]), before[i]) == Some(file) {
          DiscoverGrows(mac, events, i);
        }
        if i: nat :| LastDiscover(mac, events, i) && Offered(Run(events[..i]), events[i]) == Some(file) {
          DiscoverGrows(mac, events, i);
        }
      }
    }
  }

  /** So a Request is answered with the real file exactly when a grant stood at the last Discover. */
  lemma RequestRealIff(mac: Mac, events: seq<Event>)
    ensures Offered(Run(events), Request(mac, true, true)) == Some(Real) <==>
            exists i: nat :: LastDiscover(mac, events, i) && GrantStands(mac, events[..i])
  {
    RequestRepeats(mac, events, Real);
    forall i: nat | LastDiscover(mac, events, i)
      ensures Offered(Run(events[..i]), events[i]) == Some(Real) <==> GrantStands(mac, events[..i])
    {
      OfferedRealIff(mac, events[..i]);
    }
  }

  /** The run that shows it: one grant, one round, and the permission gone; a second Request is still
      answered with the real file, and a second Discover is refused. */
  lemma SecondRequestStillReal(mac: Mac)
    ensures var s := Run([AddAcl(mac), Discover(mac, true, true), Request(mac, true, true)]);
            && mac !in s.acl
            && Offered(s, Request(mac, true, true)) == Some(Real)
            && Offered(s, Discover(mac, true, true)) == Some(Refusal)
  {
    var a, d, r := AddAcl(mac), Discover(mac, true, true), Request(mac, true, true);
    assert [a, d, r][..2] == [a, d] && [a, d][..1] == [a] && [a][..0] == [];
    assert Run([a]).acl == {mac};
    assert Run([a, d]).bootfile == map[mac := Real];
  }

  // ---- what concerns a machine ----

  /** Commands for the machine, and its packets that come from a PXE client and got an address. */
  predicate Concerns(mac: Mac, e: Event) {
    match e
    case AddAcl(m) => m == mac
    case DelAcl(m) => m == mac
    case Discover(m, pxe, hasIp) => m == mac && pxe && hasIp
    case Request(m, pxe, hasIp) => m == mac && pxe && hasIp
  }

  function Concerning(mac: Mac, events: seq<Event>): seq<Event> {
    if events == [] then [] else
    var e := events[|events| - 1];
    Concerning(mac, events[..|events| - 1]) + if Concerns(mac, e) then [e] else []
  }

  /** A machine's permission and remembered file. */
  function About(mac: Mac, s: State): (bool, Option<File>) {
    (mac in s.acl, if mac in s.bootfile then Some(s.bootfile[mac]) else None)
  }

  lemma StepAbout(mac: Mac, s: State, t: State, e: Event)
    requires About(mac, s) == About(mac, t)
    ensures About(mac, Step(s, e)) == About(mac, if Concerns(mac, e) then Step(t, e) else t)
  {
  }

  /** A packet that is not from a PXE client or got no address is offered no file. */
  lemma OthersAreNotOffered(s: State, e: Event)
    requires e.Discover? || e.Request?
    ensures Offered(s, e).Some? ==> e.pxe && e.hasIp
    ensures !(e.pxe && e.hasIp) ==> Step(s, e) == s
  {
  }

  /** In every run a machine's permission and remembered file depend only on what concerns it: other machines,
      packets that are not from a PXE client, and those without an address leave them alone. */
  lemma {:induction false} OnlyOwnEvents(mac: Mac, events: seq<Event>)
    ensures About(mac, Run(events)) == About(mac, Run(Concerning(mac, events)))
  {
    if events != [] {
      var before, e := events[..|events| - 1], events[|events| - 1];
      var mine := Concerning(mac, before);
      OnlyOwnEvents(mac, before);
      StepAbout(mac, Run(before), Run(mine), e);
      assert (mine + [e])[..|mine|] == mine && mine + [] == mine;
    }
  }

  /** The handlers over any sequence of commands and packets: they hold what the run says, and answer
      each packet as it says. */
  method ServeAll(events: seq<Event>) returns (services: PxeServices, files: seq<Option<File>>)
    ensures services.View() == Run(events) && |files| == |events|
    ensures forall i :: 0 <= i < |events| ==> files[i] == Offered(Run(events[..i]), events[i])
  {
    services := new PxeServices();
    files := [];
    for n := 0 to |events|
      invariant fresh(services) && services.View() == Run(events[..n]) && |files| == n
      invariant forall i :: 0 <= i < n ==> files[i] == Offered(Run(events[..i]), events[i])
    {
      assert events[..n + 1][..n] == events[..n];
      var file := services.Handle(events[n]);
      files := files + [file];
    }
    assert events[..|events|] == events;
  }
}
