/**
  `CustodyObserver` of scripts/reviewed-docker-consumer-run.py: a phase protocol with a ledger of
  calls and bytes shared with the process it observes.
*/
module Custody {
  import opened Wrappers

  datatype Role = Data | Media | Consume | Export | Pgdata | Redisdata

  datatype Case = Positive | Replace(role: Role) | OwnerLoss | GuardLoss | Expiry | LostAck

  /** A device and inode. */
  datatype Object = Object(device: nat, inode: nat)

  type Id = string

  const ROLES: set<Role> := {Data, Media, Consume, Export, Pgdata, Redisdata}
  const LIMIT: nat := 1048576
  const CHECK_BYTES: nat := 5 * LIMIT + 34 * 4096 + 2 * 65536 + 16384 + 256 * 4096 + 42
  const MAX_CALLS: nat := 256
  const MAX_BYTES: nat := 16 * LIMIT

  // ------------------------------------------------ the ledger

  /**
    Calls and bytes: spent by the observer, acknowledged to the holder, and known from the holder's
    last row, which includes what was acknowledged before it.
  */
  datatype Ledger = Ledger(calls: nat, bytes: nat, ackCalls: nat, ackBytes: nat, knownCalls: int, knownBytes: int)

  datatype Usage = Usage(calls: int, bytes: int)

  /** What a check that was cut short may have spent without reporting it. */
  function Uncertainty(kase: Case, replaced: bool): Usage {
    var replacement := kase.Replace? && !replaced;
    var check := kase.Replace? || kase.LostAck?;
    Usage((if replacement then 2 else 0) + (if check then 3 else 0),
          (if replacement then 2 * LIMIT else 0) + (if check then CHECK_BYTES else 0))
  }

  function Total(l: Ledger): Usage {
    Usage(l.knownCalls + l.calls - l.ackCalls, l.knownBytes + l.bytes - l.ackBytes)
  }

  function Charged(l: Ledger, calls: nat, size: nat): Ledger {
    l.(calls := l.calls + calls, bytes := l.bytes + size)
  }

  /** `reserve`: room for that much more beside the uncertainty. */
  predicate Reservable(l: Ledger, u: Usage, calls: nat, size: nat) {
    Total(l).calls + u.calls + calls <= MAX_CALLS && Total(l).bytes + u.bytes + size <= MAX_BYTES
  }

  /** The check that `charge` makes once it has added. */
  predicate Affordable(l: Ledger, u: Usage) {
    Reservable(l, u, 0, 0)
  }

  // ------------------------------------------------ commands

  /** A block that the child writes, and whether the deadline has passed before it is read. */
  datatype Block = Block(size: nat, late: bool)

  /**
    A child command: whether the retained identities and the clock still permit it, its output up
    to the empty block at the end, and its exit status unless waiting for it times out.
  */
  datatype Child = Child(permitted: bool, blocks: seq<Block>, status: Option<int>)

  datatype Refusal = NotPermitted | NoAllowance | OverCharged | Late | TooLong | BadStatus

  datatype Answer = Answer(ledger: Ledger, status: int)

  function BlockSize(wanted: nat, room: nat): (n: nat)
    ensures n <= wanted && n <= room
    ensures wanted > 0 && room > 0 ==> n > 0
  {
    var n := if wanted < room then wanted else room;
    if n < 65536 then n else 65536
  }

  function Drain(l: Ledger, u: Usage, maximum: nat, quiet: bool, got: nat, blocks: seq<Block>, status: Option<int>): Result<Answer, Refusal>
    requires got <= maximum
    decreases |blocks|
  {
    if blocks == [] || blocks[0].late then Err(Late)
    else
      var size := BlockSize(blocks[0].size, maximum + 1 - got);
      var next := Charged(l, 0, size);
      if !Affordable(next, u) then Err(OverCharged)
      else if size > 0 then
        if got + size > maximum then Err(TooLong) else Drain(next, u, maximum, quiet, got + size, blocks[1..], status)
      else if status.None? then Err(Late)
      else if status.value !in {0, 1} || (quiet && got > 0) then Err(BadStatus)
      else Ok(Answer(next, status.value))
  }

  /** `command`: a preflight may answer up to LIMIT bytes, a presence read is quiet. */
  function CommandSpec(l: Ledger, u: Usage, preflight: bool, c: Child): Result<Answer, Refusal> {
    var maximum := if preflight then LIMIT else 16;
    if !c.permitted then Err(NotPermitted)
    else if !Reservable(l, u, 1, maximum + 1) then Err(NoAllowance)
    else if !Affordable(Charged(l, 1, 0), u) then Err(OverCharged)
    else Drain(Charged(l, 1, 0), u, maximum, !preflight, 0, c.blocks, c.status)
  }

  lemma {:induction false} DrainCovered(l: Ledger, u: Usage, maximum: nat, quiet: bool, got: nat, blocks: seq<Block>, status: Option<int>)
    requires got <= maximum && Reservable(l, u, 0, maximum + 1 - got)
    ensures var r := Drain(l, u, maximum, quiet, got, blocks, status);
      && r != Err(OverCharged)
      && (r.Ok? ==>
            && r.value.status in {0, 1} && status == Some(r.value.status)
            && r.value.ledger.calls == l.calls && Affordable(r.value.ledger, u)
            && r.value.ledger == l.(bytes := r.value.ledger.bytes)
            && l.bytes <= r.value.ledger.bytes <= l.bytes + maximum - got)
    decreases |blocks|
  {
    if blocks != [] && !blocks[0].late {
      var size := BlockSize(blocks[0].size, maximum + 1 - got);
      if 0 < size && got + size <= maximum {
        DrainCovered(Charged(l, 0, size), u, maximum, quiet, got + size, blocks[1..], status);
      }
    }
  }

  /**
    Once the reservation of a command has been granted none of its charges can fail, whatever the
    child writes; and an answered command has spent one call and at most its maximum of bytes, none
    at all for a presence read.
  */
  lemma ReserveCovers(l: Ledger, u: Usage, preflight: bool, c: Child)
    ensures var r := CommandSpec(l, u, preflight, c);
      && r != Err(OverCharged)
      && (r.Ok? ==>
            && r.value.status in {0, 1} && c.status == Some(r.value.status) && Affordable(r.value.ledger, u)
            && r.value.ledger == l.(calls := l.calls + 1, bytes := r.value.ledger.bytes)
            && l.bytes <= r.value.ledger.bytes <= l.bytes + (if preflight then LIMIT else 0))
  {
    var maximum := if preflight then LIMIT else 16;
    if Reservable(l, u, 1, maximum + 1) {
      DrainCovered(Charged(l, 1, 0), u, maximum, !preflight, 0, c.blocks, c.status);
      if !preflight {
        QuietDrain(Charged(l, 1, 0), u, maximum, c.blocks, c.status);
      }
    }
  }

  lemma QuietDrain(l: Ledger, u: Usage, maximum: nat, blocks: seq<Block>, status: Option<int>)
    ensures var r := Drain(l, u, maximum, true, 0, blocks, status); r.Ok? ==> r.value.ledger == l
  {
    if blocks != [] && !blocks[0].late {
      var size := BlockSize(blocks[0].size, maximum + 1);
      if 0 < size <= maximum {
        NotQuiet(Charged(l, 0, size), u, maximum, size, blocks[1..], status);
      }
    }
  }

  lemma {:induction false} NotQuiet(l: Ledger, u: Usage, maximum: nat, got: nat, blocks: seq<Block>, status: Option<int>)
    requires 0 < got <= maximum
    ensures Drain(l, u, maximum, true, got, blocks, status).Err?
    decreases |blocks|
  {
    if blocks != [] && !blocks[0].late {
      var size := BlockSize(blocks[0].size, maximum + 1 - got);
      if 0 < size && got + size <= maximum {
        NotQuiet(Charged(l, 0, size), u, maximum, got + size, blocks[1..], status);
      }
    }
  }

  /** How much a child prints before its empty block, if that is in time and within the room. */
  function Printed(blocks: seq<Block>, room: nat): (n: Option<nat>)
    ensures n.Some? ==> n.value <= room
  {
    if blocks == [] || blocks[0].late then None
    else if blocks[0].size == 0 then Some(0)
    else
      var size := if blocks[0].size < 65536 then blocks[0].size else 65536;
      if size > room then None
      else match Printed(blocks[1..], room - size)
        case None => None
        case Some(n) => Some(size + n)
  }

  lemma {:induction false} DrainIff(l: Ledger, u: Usage, maximum: nat, quiet: bool, got: nat, blocks: seq<Block>, status: Option<int>)
    requires got <= maximum && Reservable(l, u, 0, maximum + 1 - got)
    ensures var r := Drain(l, u, maximum, quiet, got, blocks, status); var n := Printed(blocks, maximum - got);
      && (r.Ok? <==> n.Some? && (status == Some(0) || status == Some(1)) && (quiet ==> got + n.value == 0))
      && (r.Ok? ==> r.value == Answer(Charged(l, 0, n.value), status.value))
    decreases |blocks|
  {
    if blocks != [] && !blocks[0].late {
      var size := BlockSize(blocks[0].size, maximum + 1 - got);
      if 0 < size && got + size <= maximum {
        DrainIff(Charged(l, 0, size), u, maximum, quiet, got + size, blocks[1..], status);
      }
    }
  }

  /** A presence read answers: the child is permitted, prints nothing, and exits with this status. */
  predicate Replies(c: Child, status: int) {
    c.permitted && c.blocks != [] && !c.blocks[0].late && c.blocks[0].size == 0 && c.status == Some(status)
  }

  /** A preflight answers: the child is permitted, ends its output in time and within LIMIT, and exits with 0 or 1. */
  predicate Reports(c: Child, status: int) {
    c.permitted && Printed(c.blocks, LIMIT).Some? && c.status == Some(status)
  }

  /** Exactly when a command answers, what it answers, and what it costs: one call and what was printed. */
  lemma CommandMeans(l: Ledger, u: Usage, preflight: bool, c: Child, status: int)
    requires status == 0 || status == 1
    ensures var r := CommandSpec(l, u, preflight, c);
      && (r.Ok? && r.value.status == status <==>
            Reservable(l, u, 1, if preflight then LIMIT + 1 else 17) && if preflight then Reports(c, status) else Replies(c, status))
      && (r.Ok? && preflight ==> Printed(c.blocks, LIMIT).Some? && r.value.ledger == Charged(l, 1, Printed(c.blocks, LIMIT).value))
      && (r.Ok? && !preflight ==> r.value.ledger == Charged(l, 1, 0))
      && (r.Ok? ==> r.value.status == 0 || r.value.status == 1)
  {
    var maximum := if preflight then LIMIT else 16;
    if c.permitted && Reservable(l, u, 1, maximum + 1) {
      DrainIff(Charged(l, 1, 0), u, maximum, !preflight, 0, c.blocks, c.status);
    }
  }

  // ------------------------------------------------ descriptors

  /** A descriptor of the guard: its link, unless it vanished, the role it names, and its object. */
  datatype Descriptor = Descriptor(numeric: bool, link: Option<nat>, role: Option<Role>, target: Option<Object>, directory: bool)

  datatype Listed = Listed(ledger: Ledger, roles: map<Role, Object>)

  const MAX_DESCRIPTORS: nat := 128
  const MAX_LINK: nat := 4096

  function ScanDescriptors(l: Ledger, u: Usage, index: nat, listing: seq<Descriptor>, strict: bool, found: map<Role, Object>): Option<Listed>
    decreases |listing|
  {
    if listing == [] then Some(Listed(l, found))
    else
      var d := listing[0];
      if index >= MAX_DESCRIPTORS || !d.numeric then None
      else if d.link.None? then ScanDescriptors(l, u, index + 1, listing[1..], strict, found)
      else
        var next := Charged(l, 0, d.link.value);
        if !Affordable(next, u) || d.link.value > MAX_LINK then None
        else if d.target.None? || d.role.None? then ScanDescriptors(next, u, index + 1, listing[1..], strict, found)
        else if !d.directory || (strict && d.role.value in found) then None
        else
          ScanDescriptors(next, u, index + 1, listing[1..], strict,
                          if d.role.value in found then found else found[d.role.value := d.target.value])
  }

  /** `inventory`: the role directories that the guard holds open; a dead guard holds none. */
  function InventorySpec(l: Ledger, u: Usage, guardAlive: bool, listing: seq<Descriptor>, strict: bool): Option<Listed> {
    if !guardAlive then Some(Listed(l, map[]))
    else if !Reservable(l, u, 0, MAX_DESCRIPTORS * MAX_LINK) then None
    else ScanDescriptors(l, u, 0, listing, strict, map[])
  }

  predicate Shown(d: Descriptor) {
    d.link.Some? && d.target.Some? && d.role.Some?
  }

  /** A listing that passes every check that is not about the budget. */
  ghost predicate ListingOk(listing: seq<Descriptor>, strict: bool, found: set<Role>) {
    && (forall i | 0 <= i < |listing| :: listing[i].numeric && (listing[i].link.Some? ==> listing[i].link.value <= MAX_LINK))
    && (forall i | 0 <= i < |listing| && Shown(listing[i]) :: listing[i].directory && (strict ==> listing[i].role.value !in found))
    && (strict ==> forall i, j | 0 <= i < j < |listing| && Shown(listing[i]) && Shown(listing[j]) :: listing[i].role != listing[j].role)
  }

  lemma ListingSplits(listing: seq<Descriptor>, strict: bool, found: set<Role>)
    requires listing != []
    ensures var d := listing[0];
      ListingOk(listing, strict, found) <==>
        && d.numeric && (d.link.Some? ==> d.link.value <= MAX_LINK)
        && (Shown(d) ==> d.directory && (strict ==> d.role.value !in found))
        && ListingOk(listing[1..], strict, if Shown(d) then found + {d.role.value} else found)
  {
    var d, rest := listing[0], listing[1..];
    var grown := if Shown(d) then found + {d.role.value} else found;
    if ListingOk(listing, strict, found) {
      assert forall i | 0 <= i < |rest| :: rest[i] == listing[i + 1];
    }
    if d.numeric && (d.link.Some? ==> d.link.value <= MAX_LINK) && (Shown(d) ==> d.directory && (strict ==> d.role.value !in found))
       && ListingOk(rest, strict, grown) {
      assert forall i | 0 < i < |listing| :: listing[i] == rest[i - 1];
    }
  }

  /** The reservation covers every link within its bound, so the budget never decides a listing. */
  lemma {:induction false} ScanIff(l: Ledger, u: Usage, index: nat, listing: seq<Descriptor>, strict: bool, found: map<Role, Object>)
    requires index <= MAX_DESCRIPTORS && Reservable(l, u, 0, (MAX_DESCRIPTORS - index) * MAX_LINK)
    ensures var r := ScanDescriptors(l, u, index, listing, strict, found);
      && (r.Some? <==> index + |listing| <= MAX_DESCRIPTORS && ListingOk(listing, strict, found.Keys))
      && (r.Some? ==>
            && Affordable(r.value.ledger, u) && r.value.ledger == l.(bytes := r.value.ledger.bytes)
            && l.bytes <= r.value.ledger.bytes <= l.bytes + (MAX_DESCRIPTORS - index) * MAX_LINK
            && (forall role :: role in r.value.roles <==>
                  role in found || exists i :: 0 <= i < |listing| && Shown(listing[i]) && listing[i].role == Some(role))
            && (forall role | role in found :: r.value.roles[role] == found[role])
            && (strict ==> forall i | 0 <= i < |listing| && Shown(listing[i]) :: r.value.roles[listing[i].role.value] == listing[i].target.value))
    decreases |listing|
  {
    assert listing == [] ==> ListingOk(listing, strict, found.Keys);
    hide ListingOk;
    if listing != [] {
      var d, rest := listing[0], listing[1..];
      ListingSplits(listing, strict, found.Keys);
      if index < MAX_DESCRIPTORS && (d.link.Some? ==> d.link.value <= MAX_LINK) {
        var next := if d.link.Some? then Charged(l, 0, d.link.value) else l;
        var grown := if Shown(d) && d.role.value !in found then found[d.role.value := d.target.value] else found;
        ScanIff(next, u, index + 1, rest, strict, grown);
        assert grown.Keys == if Shown(d) then found.Keys + {d.role.value} else found.Keys;
        ShownSplits(listing);
        forall i | 0 < i < |listing| ensures listing[i] == rest[i - 1] {}
      }
    }
  }

  lemma ShownSplits(listing: seq<Descriptor>)
    requires listing != []
    ensures forall role :: (exists i :: 0 <= i < |listing| && Shown(listing[i]) && listing[i].role == Some(role)) <==>
              || (Shown(listing[0]) && listing[0].role == Some(role))
              || (exists i :: 0 <= i < |listing[1..]| && Shown(listing[1..][i]) && listing[1..][i].role == Some(role))
  {
    forall i | 0 < i < |listing| ensures listing[i] == listing[1..][i - 1] {}
  }

  // ------------------------------------------------ the protocol

  datatype Kind = Container | OuterName | Volume

  /**
    What the observer has seen, in order. `SawVacant` is a look that found no role directory open and
    the container present; it `listed` descriptors only if the guard was alive.
  */
  datatype Event =
    | SawPrepared
    | SawHeld(roles: map<Role, Object>)
    | SawReplaced(role: Role)
    | SawClosed
    | SawVacant(listed: bool)
    | SawBothDead
    | SawAbsent(kind: Kind)

  /** The acknowledgement file of a row. */
  datatype Ack = Ack(calls: int, bytes: int)

  datatype State = State(
    kase: Case, phase: nat, ledger: Ledger, owner: Option<Id>, cid: Option<Id>, roles: Option<map<Role, Object>>,
    closed: bool, replaced: bool, acks: seq<Ack>, history: seq<Event>)

  function Initial(kase: Case): State {
    State(kase, 0, Ledger(0, 0, 0, 0, 0, 0), None, None, None, false, false, [], [])
  }

  function Usages(s: State): Usage {
    Uncertainty(s.kase, s.replaced)
  }

  /**
    What a row of one stage meets. `sound` stands for its checks on identities, digests and clocks;
    sizes are those of the files read on the way.
  */
  datatype Stage =
    | Prepared(sound: bool, nullCid: bool, marker: nat, original: nat, preflight: Child, refreshed: nat)
    | Held(sound: bool, guardAlive: bool, cid: Id, presence: Child, listing: seq<Descriptor>,
           identity: Role -> Option<Object>, lease: nat, manifest: nat)
    | Replaced(guardAlive: bool, listing: seq<Descriptor>, identity: Role -> Option<Object>)
    | Closed(guardAlive: bool, listing: seq<Descriptor>, presence: Child)

  /** A row that the holder publishes for the current phase. */
  datatype Row = Row(size: nat, sound: bool, owner: Id, calls: int, bytes: int, stage: Stage)

  datatype Visit = NoRow(guardAlive: bool, listing: seq<Descriptor>, presence: Child) | HasRow(row: Row)

  function Charge(s: State, size: nat): Option<State> {
    if Affordable(Charged(s.ledger, 0, size), Usages(s)) then Some(s.(ledger := Charged(s.ledger, 0, size))) else None
  }

  const MAX_PRIVATE: nat := 131072

  /** `read_phase`: a private file, never empty and within its bound, charged by its size. */
  function ReadFile(s: State, size: nat): Option<State> {
    if 0 < size <= MAX_PRIVATE then Charge(s, size) else None
  }

  function Command(s: State, preflight: bool, status: int, c: Child): Option<State> {
    match CommandSpec(s.ledger, Usages(s), preflight, c)
    case Err(_) => None
    case Ok(a) => if a.status == status then Some(s.(ledger := a.ledger)) else None
  }

  predicate SixDistinct(roles: map<Role, Object>) {
    roles.Keys == ROLES && forall a, b | a in roles && b in roles && a != b :: roles[a] != roles[b]
  }

  /** Neither a role directory held open nor the container gone: the order of removal is as it should be. */
  function LookVacant(s: State, guardAlive: bool, listing: seq<Descriptor>, presence: Child): Option<State> {
    var listed :- InventorySpec(s.ledger, Usages(s), guardAlive, listing, false);
    if listed.roles != map[] then Some(s.(ledger := listed.ledger))
    else
      match CommandSpec(listed.ledger, Usages(s), false, presence)
      case Err(_) => None
      case Ok(a) =>
        if a.status == 0 then Some(s.(ledger := a.ledger, closed := true, history := s.history + [SawVacant(guardAlive)]))
        else Some(s.(ledger := a.ledger))
  }

  /** Reading a row: its charge, its checks, and what it makes known. */
  function Open(s: State, row: Row): Option<State> {
    var t :- ReadFile(s, row.size);
    if !row.sound || !(0 <= row.calls <= MAX_CALLS && 0 <= row.bytes <= MAX_BYTES)
       || row.calls < t.ledger.knownCalls || row.bytes < t.ledger.knownBytes
    then None
    else Some(t.(ledger := t.ledger.(knownCalls := row.calls, knownBytes := row.bytes)))
  }

  function Prepare(s: State, owner: Id, e: Stage): Option<State>
    requires e.Prepared?
  {
    if s.owner.Some? || s.phase != 0 || !e.nullCid || !e.sound then None
    else
      var t1 :- ReadFile(s, e.marker);
      var t2 :- ReadFile(t1.(owner := Some(owner)), e.original);
      var t3 :- Command(t2, true, 0, e.preflight);
      var t4 :- ReadFile(t3, e.refreshed);
      Some(t4.(history := t4.history + [SawPrepared]))
  }

  function Hold(s: State, e: Stage): Option<State>
    requires e.Held?
  {
    if s.phase != 1 || !e.guardAlive || !e.sound then None
    else
      var t1 :- Command(s.(cid := Some(e.cid)), false, 0, e.presence);
      var listed :- InventorySpec(t1.ledger, Usages(s), e.guardAlive, e.listing, true);
      if !SixDistinct(listed.roles) || exists role | role in listed.roles :: e.identity(role) != Some(listed.roles[role]) then None
      else
        var t2 :- ReadFile(t1.(ledger := listed.ledger, roles := Some(listed.roles)), e.lease);
        if t2.kase.Expiry? then
          if !Reservable(t2.ledger, Usages(t2), 0, 128 * 1024 + 8192) then None
          else
            var t3 :- ReadFile(t2, e.manifest);
            Some(t3.(history := t3.history + [SawHeld(listed.roles)]))
        else Some(t2.(history := t2.history + [SawHeld(listed.roles)]))
  }

  function Displace(s: State, e: Stage): Option<State>
    requires e.Replaced?
  {
    if !s.kase.Replace? || s.phase != 2 || s.roles.None? || !e.guardAlive then None
    else
      var listed :- InventorySpec(s.ledger, Usages(s), e.guardAlive, e.listing, true);
      var role := s.kase.role;
      if listed.roles != s.roles.value || role !in listed.roles || e.identity(role).None? || e.identity(role) == Some(listed.roles[role]) then None
      else Some(s.(ledger := listed.ledger, replaced := true, history := s.history + [SawReplaced(role)]))
  }

  function Shut(s: State, e: Stage): Option<State>
    requires e.Closed?
  {
    if s.phase != 2 || s.roles.None? then None
    else
      var listed :- InventorySpec(s.ledger, Usages(s), e.guardAlive, e.listing, false);
      if listed.roles != map[] then None
      else
        var t :- Command(s.(ledger := listed.ledger), false, 0, e.presence);
        Some(t.(closed := true, history := t.history + [SawVacant(e.guardAlive), SawClosed]))
  }

  /** One stage, refused when it is out of turn or comes from another owner. */
  function Advance(s: State, row: Row): Option<State> {
    if row.stage.Prepared? then Prepare(s, row.owner, row.stage)
    else if s.owner != Some(row.owner) then None
    else
      match row.stage
      case Held(_, _, _, _, _, _, _, _) => Hold(s, row.stage)
      case Replaced(_, _, _) => Displace(s, row.stage)
      case Closed(_, _, _) => Shut(s, row.stage)
  }

  /** The acknowledgement reports what was spent since the one before. */
  function Acknowledge(s: State): State {
    var l := s.ledger;
    s.(acks := s.acks + [Ack(l.calls - l.ackCalls, l.bytes - l.ackBytes)],
       ledger := l.(ackCalls := l.calls, ackBytes := l.bytes), phase := s.phase + 1)
  }

  /** `tick`. */
  function TickSpec(s: State, v: Visit): Option<State> {
    match v
    case HasRow(row) =>
      var t1 :- Open(s, row);
      var t2 :- Advance(t1, row);
      Some(Acknowledge(t2))
    case NoRow(guardAlive, listing, presence) =>
      if s.roles.Some? && !s.closed && !s.kase.Positive? && !s.kase.GuardLoss? then LookVacant(s, guardAlive, listing, presence)
      else Some(s)
  }

  function Run(s: State, visits: seq<Visit>): Option<State>
    decreases |visits|
  {
    if visits == [] then Some(s)
    else
      var t :- Run(s, visits[..|visits| - 1]);
      TickSpec(t, visits[|visits| - 1])
  }

  // ------------------------------------------------ the end of a run

  /** One turn of the wait for the guard to die. */
  datatype Poll = Poll(late: bool, guardAlive: bool, listing: seq<Descriptor>, presence: Child)

  datatype Finale = Finale(
    polls: seq<Poll>, ownerAlive: bool, sound: bool, decision: nat, request: nat, control: nat,
    container: Child, outerName: Child, volume: Child, privateGone: bool, resultSize: nat, resultCalls: int, resultBytes: int)

  datatype Report = Report(state: State, used: Usage, upper: Usage)

  const MAX_DECISION: nat := 4096

  function Wait(s: State, polls: seq<Poll>): Option<State>
    decreases |polls|
  {
    if polls == [] then Some(s)
    else if polls[0].late then None
    else if s.closed then Wait(s, polls[1..])
    else
      var t :- LookVacant(s, polls[0].guardAlive, polls[0].listing, polls[0].presence);
      Wait(t, polls[1..])
  }

  /** The files that only some cases leave behind. */
  function ReadEvidence(s: State, f: Finale): Option<State> {
    var t1 :- if !s.kase.Expiry? then Some(s)
              else if !Reservable(s.ledger, Usages(s), 0, 8192) || !(0 < f.decision <= MAX_DECISION) then None
              else Charge(s, 2 * f.decision);
    var t2 :- if s.kase.Replace? || s.kase.LostAck? then ReadFile(t1, f.request) else Some(t1);
    if s.kase.LostAck? then ReadFile(t2, f.control) else Some(t2)
  }

  function FindAbsent(s: State, kind: Kind, c: Child): Option<State> {
    var t :- Command(s, false, 1, c);
    Some(t.(history := t.history + [SawAbsent(kind)]))
  }

  function FindAllAbsent(s: State, f: Finale): Option<State> {
    var t1 :- FindAbsent(s, Container, f.container);
    var t2 :- FindAbsent(t1, OuterName, f.outerName);
    FindAbsent(t2, Volume, f.volume)
  }

  /** The counts of the holder, where the case leaves it alive long enough to publish them. */
  function ReadResult(s: State, f: Finale): Option<State> {
    if s.kase.Positive? || s.kase.GuardLoss? then
      var t :- ReadFile(s, f.resultSize);
      Some(t.(ledger := t.ledger.(knownCalls := f.resultCalls, knownBytes := f.resultBytes)))
    else Some(s)
  }

  /** `finish`: None is a refusal. */
  function FinishSpec(s: State, f: Finale): Option<Report> {
    if s.owner.None? || s.cid.None? || s.roles.None? then None
    else
      var t1 :- Wait(s, f.polls);
      if f.ownerAlive || !t1.closed || (s.kase.Replace? && !t1.replaced) || !f.sound then None
      else
        var t2 :- ReadEvidence(t1.(history := t1.history + [SawBothDead]), f);
        var t3 :- FindAllAbsent(t2, f);
        if !f.privateGone then None
        else
          var t4 :- ReadResult(t3, f);
          var used, u := Total(t4.ledger), Usages(t4);
          Some(Report(t4, used, Usage(used.calls + u.calls, used.bytes + u.bytes)))
  }

  // ------------------------------------------------ what every run keeps

  predicate Turning(e: Event) {
    e.SawReplaced? || e.SawClosed?
  }

  /** The history of a run up to the end of its rows. */
  ghost predicate Orderly(s: State) {
    var h := s.history;
    && s.phase <= 3
    && (s.phase == 0 ==> h == [])
    && (s.phase == 1 ==> h == [SawPrepared])
    && (s.phase >= 2 ==>
          && s.roles.Some? && SixDistinct(s.roles.value)
          && |h| >= 2 && h[0] == SawPrepared && h[1] == SawHeld(s.roles.value)
          && forall i | 2 <= i < |h| :: h[i].SawVacant? || Turning(h[i]))
    && (s.phase <= 2 ==> forall i | 0 <= i < |h| :: !Turning(h[i]))
    && (forall i, j | 0 <= i < |h| && 0 <= j < |h| && Turning(h[i]) && Turning(h[j]) :: i == j)
    && (forall i | 0 <= i < |h| && h[i].SawReplaced? :: s.kase == Replace(h[i].role))
  }

  /** For each vacant look of a history, in order, whether descriptors were listed. */
  function Sighted(h: seq<Event>): seq<bool> {
    if h == [] then [] else
      var last := h[|h| - 1];
      Sighted(h[..|h| - 1]) + if last.SawVacant? then [last.listed] else []
  }

  lemma SightedSnoc(h: seq<Event>, e: Event)
    ensures Sighted(h + [e]) == Sighted(h) + if e.SawVacant? then [e.listed] else []
  {
    assert (h + [e])[..|h|] == h;
  }

  lemma {:induction false} SightedIn(h: seq<Event>, listed: bool)
    ensures listed in Sighted(h) <==> SawVacant(listed) in h
  {
    if h != [] {
      SightedIn(h[..|h| - 1], listed);
      assert h == h[..|h| - 1] + [h[|h| - 1]];
    }
  }

  ghost predicate Latched(s: State) {
    && (s.owner.Some? <==> s.phase >= 1) && (s.cid.Some? <==> s.phase >= 2) && (s.roles.Some? <==> s.phase >= 2)
    && (s.closed ==> s.phase >= 2) && (s.closed <==> Sighted(s.history) != [])
    && (s.replaced <==> exists i :: 0 <= i < |s.history| && s.history[i].SawReplaced?)
  }

  function AckedCalls(acks: seq<Ack>): int {
    if acks == [] then 0 else AckedCalls(acks[..|acks| - 1]) + acks[|acks| - 1].calls
  }

  function AckedBytes(acks: seq<Ack>): int {
    if acks == [] then 0 else AckedBytes(acks[..|acks| - 1]) + acks[|acks| - 1].bytes
  }

  /** The acknowledged deltas telescope, and the observer is within its allowance. */
  ghost predicate Balanced(s: State) {
    && |s.acks| == s.phase
    && s.ledger.ackCalls == AckedCalls(s.acks) && s.ledger.ackBytes == AckedBytes(s.acks)
    && s.ledger.ackCalls <= s.ledger.calls && s.ledger.ackBytes <= s.ledger.bytes
    && (forall i | 0 <= i < |s.acks| :: s.acks[i].calls >= (if i < 2 then 1 else 0) && s.acks[i].bytes >= 1)
    && Affordable(s.ledger, Usages(s))
  }

  ghost predicate Inv(s: State) {
    Orderly(s) && Latched(s) && Balanced(s)
  }

  lemma InitialInv(kase: Case)
    ensures Inv(Initial(kase))
  {}

  /** Only the ledger moves, by spending. */
  ghost predicate Spends(s: State, t: State) {
    && t == s.(ledger := t.ledger)
    && t.ledger == s.ledger.(calls := t.ledger.calls, bytes := t.ledger.bytes)
    && s.ledger.calls <= t.ledger.calls && s.ledger.bytes <= t.ledger.bytes
  }

  ghost predicate Funded(s: State) {
    Affordable(s.ledger, Usages(s))
  }

  lemma CommandSpends(s: State, preflight: bool, status: int, c: Child)
    ensures var r := Command(s, preflight, status, c);
      r.Some? ==> Spends(s, r.value) && Funded(r.value) && r.value.ledger.calls == s.ledger.calls + 1 && c.status == Some(status)
  {
    hide CommandSpec;
    ReserveCovers(s.ledger, Usages(s), preflight, c);
  }

  lemma InventorySpends(s: State, guardAlive: bool, listing: seq<Descriptor>, strict: bool)
    ensures var r := InventorySpec(s.ledger, Usages(s), guardAlive, listing, strict);
      r.Some? ==> Spends(s, s.(ledger := r.value.ledger)) && (guardAlive || Funded(s) ==> Affordable(r.value.ledger, Usages(s)))
  {
    hide ScanDescriptors;
    if guardAlive && Reservable(s.ledger, Usages(s), 0, MAX_DESCRIPTORS * MAX_LINK) {
      ScanIff(s.ledger, Usages(s), 0, listing, strict, map[]);
    }
  }

  /** No role directory is held open, as far as can be seen: a dead guard has no descriptors to list. */
  predicate NothingHeld(guardAlive: bool, listing: seq<Descriptor>) {
    guardAlive ==> forall i | 0 <= i < |listing| :: !Shown(listing[i])
  }

  lemma InventoryEmptyIff(s: State, guardAlive: bool, listing: seq<Descriptor>, strict: bool)
    ensures var r := InventorySpec(s.ledger, Usages(s), guardAlive, listing, strict);
      r.Some? ==> (r.value.roles == map[] <==> NothingHeld(guardAlive, listing))
  {
    hide ScanDescriptors, Shown, ListingOk, Affordable;
    if guardAlive && Reservable(s.ledger, Usages(s), 0, MAX_DESCRIPTORS * MAX_LINK) {
      ScanIff(s.ledger, Usages(s), 0, listing, strict, map[]);
      var r := InventorySpec(s.ledger, Usages(s), guardAlive, listing, strict);
      if r.Some? {
        RolesEmptyIff(r.value.roles, listing);
      }
    }
  }

  lemma RolesEmptyIff(roles: map<Role, Object>, listing: seq<Descriptor>)
    requires forall role :: role in roles <==> exists i :: 0 <= i < |listing| && Shown(listing[i]) && listing[i].role == Some(role)
    ensures roles == map[] <==> forall i | 0 <= i < |listing| :: !Shown(listing[i])
  {
    forall i | 0 <= i < |listing| && Shown(listing[i]) ensures listing[i].role.value in roles {}
  }

  /**
    What a look decides: it latches "closed" exactly when nothing is held and the container answers 0,
    and it counts as a listing exactly when the guard was alive.
  */
  lemma LookDecides(s: State, guardAlive: bool, listing: seq<Descriptor>, presence: Child)
    requires Funded(s)
    ensures var r := LookVacant(s, guardAlive, listing, presence);
      r.Some? ==>
        && Funded(r.value)
        && if NothingHeld(guardAlive, listing) && presence.status == Some(0) then Spends(SeenVacant(s, guardAlive), r.value)
           else Spends(s, r.value)
  {
    hide InventorySpec, CommandSpec, NothingHeld;
    InventorySpends(s, guardAlive, listing, false);
    InventoryEmptyIff(s, guardAlive, listing, false);
    var listed := InventorySpec(s.ledger, Usages(s), guardAlive, listing, false);
    if listed.Some? {
      ReserveCovers(listed.value.ledger, Usages(s), false, presence);
    }
  }

  function SeenVacant(s: State, listed: bool): State {
    s.(closed := true, history := s.history + [SawVacant(listed)])
  }

  function SeenClosed(s: State, listed: bool): State {
    s.(closed := true, history := s.history + [SawVacant(listed), SawClosed])
  }

  /** What a stage leaves: the latches it sets and the events it adds, and a funded ledger. */
  ghost predicate Follows(s: State, t: State) {
    && Funded(t)
    && match s.phase
       case 0 => Spends(s.(owner := t.owner, history := [SawPrepared]), t) && t.owner.Some? && s.ledger.calls < t.ledger.calls
       case 1 =>
         && s.ledger.calls < t.ledger.calls
         && t.roles.Some? && SixDistinct(t.roles.value) && t.cid.Some?
         && Spends(s.(cid := t.cid, roles := t.roles, history := s.history + [SawHeld(t.roles.value)]), t)
       case 2 =>
         || (s.kase.Replace? && Spends(s.(replaced := true, history := s.history + [SawReplaced(s.kase.role)]), t))
         || Spends(SeenClosed(s, true), t) || Spends(SeenClosed(s, false), t)
       case _ => false
  }

  lemma PrepareFollows(s: State, owner: Id, e: Stage)
    requires e.Prepared? && (s.phase == 0 ==> s.history == [])
    ensures var r := Prepare(s, owner, e); r.Some? ==> s.phase == 0 && Follows(s, r.value)
  {
    hide CommandSpec, Command, Affordable;
    var t1 := ReadFile(s, e.marker);
    if t1.Some? {
      var t2 := ReadFile(t1.value.(owner := Some(owner)), e.original);
      if t2.Some? {
        CommandSpends(t2.value, true, 0, e.preflight);
      }
    }
  }

  lemma PrepareOnce(s: State, owner: Id, e: Stage)
    requires e.Prepared? && s.phase != 0
    ensures Prepare(s, owner, e).None?
  {}

  lemma HoldFollows(s: State, e: Stage)
    requires e.Held?
    ensures var r := Hold(s, e); r.Some? ==> s.phase == 1 && Follows(s, r.value)
  {
    hide CommandSpec, Command, InventorySpec, SixDistinct, Affordable, Reservable;
    var t1 := Command(s.(cid := Some(e.cid)), false, 0, e.presence);
    CommandSpends(s.(cid := Some(e.cid)), false, 0, e.presence);
    if t1.Some? {
      InventorySpends(t1.value, e.guardAlive, e.listing, true);
    }
  }

  lemma DisplaceFollows(s: State, e: Stage)
    requires e.Replaced?
    ensures var r := Displace(s, e);
      r.Some? ==>
        && s.phase == 2 && Follows(s, r.value) && s.kase.Replace?
        && Spends(s.(replaced := true, history := s.history + [SawReplaced(s.kase.role)]), r.value)
  {
    hide InventorySpec;
    InventorySpends(s, e.guardAlive, e.listing, true);
  }

  lemma ShutFollows(s: State, e: Stage)
    requires e.Closed?
    ensures var r := Shut(s, e);
      r.Some? ==>
        && s.phase == 2 && Follows(s, r.value) && Spends(SeenClosed(s, e.guardAlive), r.value)
        && NothingHeld(e.guardAlive, e.listing) && e.presence.status == Some(0)
  {
    hide InventorySpec, Command, CommandSpec, NothingHeld;
    InventorySpends(s, e.guardAlive, e.listing, false);
    InventoryEmptyIff(s, e.guardAlive, e.listing, false);
    var listed := InventorySpec(s.ledger, Usages(s), e.guardAlive, e.listing, false);
    if listed.Some? {
      CommandSpends(s.(ledger := listed.value.ledger), false, 0, e.presence);
    }
  }

  lemma AdvanceFollows(s: State, row: Row)
    requires s.phase == 0 ==> s.history == []
    ensures var r := Advance(s, row); r.Some? ==> s.phase <= 2 && Follows(s, r.value)
  {
    hide Prepare, Hold, Displace, Shut, Follows;
    if row.stage.Prepared? {
      if s.phase == 0 {
        PrepareFollows(s, row.owner, row.stage);
      } else {
        PrepareOnce(s, row.owner, row.stage);
      }
    } else {
      match row.stage
      case Held(_, _, _, _, _, _, _, _) => HoldFollows(s, row.stage);
      case Replaced(_, _, _) => DisplaceFollows(s, row.stage);
      case Closed(_, _, _) => ShutFollows(s, row.stage);
      case _ =>
    }
  }

  lemma FirstRowsKeepOrder(s: State, t: State)
    requires Orderly(s) && Latched(s) && Follows(s, t) && s.phase < 2
    ensures Orderly(Acknowledge(t))
  {
    hide SixDistinct, Funded, Sighted;
  }

  lemma LastRowKeepsOrder(s: State, t: State)
    requires Orderly(s) && Follows(s, t) && s.phase >= 2
    ensures Orderly(Acknowledge(t))
  {
    hide SixDistinct, Funded;
    var h, g := s.history, t.history;
    forall i | 0 <= i < |h| ensures h[i] == g[i] {}
  }

  lemma FollowsKeepsOrder(s: State, t: State)
    requires Orderly(s) && Latched(s) && Follows(s, t)
    ensures Orderly(Acknowledge(t))
  {
    hide Orderly, Latched, Follows;
    if s.phase < 2 {
      FirstRowsKeepOrder(s, t);
    } else {
      LastRowKeepsOrder(s, t);
    }
  }

  lemma ClosedSighted(s: State, t: State, listed: bool)
    requires Spends(SeenClosed(s, listed), t)
    ensures t.closed && Sighted(t.history) == Sighted(s.history) + [listed]
  {
    SightedSnoc(s.history, SawVacant(listed));
    SightedSnoc(s.history + [SawVacant(listed)], SawClosed);
    assert t.history == (s.history + [SawVacant(listed)]) + [SawClosed];
  }

  /** Only a closed row adds to the vacant looks. */
  lemma FollowsSighted(s: State, t: State)
    requires Follows(s, t) && (s.phase == 0 ==> s.history == [])
    ensures || (t.closed == s.closed && Sighted(t.history) == Sighted(s.history))
            || (s.phase == 2 && (Spends(SeenClosed(s, true), t) || Spends(SeenClosed(s, false), t)))
  {
    hide SixDistinct, Funded, Sighted;
    if s.phase == 0 {
      SightedSnoc(s.history, SawPrepared);
      assert s.history + [SawPrepared] == [SawPrepared];
    } else if s.phase == 1 {
      SightedSnoc(s.history, SawHeld(t.roles.value));
    } else if s.kase.Replace? {
      SightedSnoc(s.history, SawReplaced(s.kase.role));
    }
  }

  lemma FollowsKeepsLatches(s: State, t: State)
    requires Orderly(s) && Latched(s) && Follows(s, t)
    ensures Latched(Acknowledge(t))
  {
    hide SixDistinct, Funded, Sighted;
    FollowsSighted(s, t);
    forall listed | Spends(SeenClosed(s, listed), t) ensures t.closed && Sighted(t.history) == Sighted(s.history) + [listed] {
      ClosedSighted(s, t, listed);
    }
    var h, g := s.history, t.history;
    if s.phase > 0 {
      assert h <= g;
      forall i | 0 <= i < |h| ensures h[i] == g[i] {}
    }
    if t.replaced && !s.replaced {
      assert g[|h|].SawReplaced?;
    }
  }

  /** Opening a row changes only what is known and what is spent. */
  lemma OpenShape(s: State, row: Row)
    ensures var r := Open(s, row);
      r.Some? ==>
        && r.value == s.(ledger := r.value.ledger)
        && 0 < row.size && r.value.ledger == s.ledger.(bytes := s.ledger.bytes + row.size, knownCalls := row.calls, knownBytes := row.bytes)
  {}

  lemma RowKeeps(s: State, row: Row)
    requires Inv(s)
    ensures var r := TickSpec(s, HasRow(row)); r.Some? ==> Inv(r.value)
  {
    hide Open, Advance, Follows, SixDistinct;
    OpenShape(s, row);
    var t1 := Open(s, row);
    if t1.Some? {
      AdvanceFollows(t1.value, row);
      var t2 := Advance(t1.value, row);
      if t2.Some? {
        FollowsKeepsOrder(t1.value, t2.value);
        FollowsKeepsLatches(t1.value, t2.value);
        FollowsAcks(s, t1.value, t2.value);
      }
    }
  }

  /** What a stage does to the books. */
  lemma FollowsBooks(s: State, t: State)
    requires Follows(s, t)
    ensures t.kase == s.kase && t.phase == s.phase && t.acks == s.acks && Funded(t)
    ensures t.ledger == s.ledger.(calls := t.ledger.calls, bytes := t.ledger.bytes)
    ensures s.ledger.calls + (if s.phase < 2 then 1 else 0) <= t.ledger.calls && s.ledger.bytes <= t.ledger.bytes
  {
    hide SixDistinct, Funded;
  }

  lemma AckedSnoc(acks: seq<Ack>, a: Ack)
    ensures AckedCalls(acks + [a]) == AckedCalls(acks) + a.calls && AckedBytes(acks + [a]) == AckedBytes(acks) + a.bytes
  {
    assert (acks + [a])[..|acks|] == acks;
  }

  /** The acknowledgement of a stage closes the balance that was kept before its row was opened. */
  lemma FollowsAcks(s: State, o: State, t: State)
    requires Balanced(s) && Follows(o, t) && o == s.(ledger := o.ledger)
    requires o.ledger.ackCalls == s.ledger.ackCalls && o.ledger.ackBytes == s.ledger.ackBytes
    requires s.ledger.calls <= o.ledger.calls && s.ledger.bytes < o.ledger.bytes
    ensures Balanced(Acknowledge(t))
  {
    hide Follows, AckedCalls, AckedBytes, Affordable;
    FollowsBooks(o, t);
    var l := t.ledger;
    AckedSnoc(s.acks, Ack(l.calls - l.ackCalls, l.bytes - l.ackBytes));
    AcknowledgedAffordable(l, Usages(t));
  }

  lemma AcknowledgedAffordable(l: Ledger, u: Usage)
    requires Affordable(l, u) && l.ackCalls <= l.calls && l.ackBytes <= l.bytes
    ensures Affordable(l.(ackCalls := l.calls, ackBytes := l.bytes), u)
  {}

  lemma LookKeeps(s: State, guardAlive: bool, listing: seq<Descriptor>, presence: Child)
    requires Inv(s) && s.phase >= 2
    ensures var r := LookVacant(s, guardAlive, listing, presence); r.Some? ==> Inv(r.value)
  {
    hide LookVacant, SixDistinct, Orderly, Latched;
    LookDecides(s, guardAlive, listing, presence);
    VacantOrderly(s, guardAlive);
    SpendingOrderly();
  }

  lemma VacantOrderly(s: State, listed: bool)
    requires Orderly(s) && Latched(s) && s.phase >= 2
    ensures Orderly(SeenVacant(s, listed)) && Latched(SeenVacant(s, listed))
  {
    hide SixDistinct, Sighted;
    SightedSnoc(s.history, SawVacant(listed));
    var h := s.history;
    forall i | 0 <= i < |h| ensures (h + [SawVacant(listed)])[i] == h[i] {}
    assert (h + [SawVacant(listed)])[|h|] == SawVacant(listed);
  }

  /** Spending touches neither the history nor the latches. */
  lemma SpendingOrderly()
    ensures forall s, t | Spends(s, t) && Orderly(s) && Latched(s) :: Orderly(t) && Latched(t)
  {
    hide SixDistinct;
  }

  lemma TickKeeps(s: State, v: Visit)
    requires Inv(s)
    ensures var r := TickSpec(s, v); r.Some? ==> Inv(r.value)
  {
    hide Orderly, Balanced, LookVacant;
    if v.HasRow? {
      RowKeeps(s, v.row);
    } else if s.roles.Some? {
      LookKeeps(s, v.guardAlive, v.listing, v.presence);
    }
  }

  /** Every run of ticks from the start keeps the order of events, the latches and the balance. */
  lemma {:induction false} RunKeeps(kase: Case, visits: seq<Visit>)
    ensures var r := Run(Initial(kase), visits); r.Some? ==> Inv(r.value) && r.value.kase == kase
    decreases |visits|
  {
    hide TickSpec, Inv;
    if visits == [] {
      InitialInv(kase);
    } else {
      var shorter := visits[..|visits| - 1];
      RunKeeps(kase, shorter);
      var t := Run(Initial(kase), shorter);
      if t.Some? {
        TickKeeps(t.value, visits[|visits| - 1]);
        TickKeepsCase(t.value, visits[|visits| - 1]);
      }
    }
  }

  lemma StartIsBlank(s: State)
    requires Orderly(s)
    ensures s.phase == 0 ==> s.history == []
  {}

  lemma TickKeepsCase(s: State, v: Visit)
    requires Inv(s)
    ensures var r := TickSpec(s, v); r.Some? ==> r.value.kase == s.kase
  {
    hide Open, Advance, LookVacant, Orderly, Balanced, Follows;
    StartIsBlank(s);
    if v.HasRow? {
      OpenShape(s, v.row);
      var t1 := Open(s, v.row);
      if t1.Some? {
        AdvanceFollows(t1.value, v.row);
        if Advance(t1.value, v.row).Some? {
          FollowsBooks(t1.value, Advance(t1.value, v.row).value);
        }
      }
    } else if s.roles.Some? {
      hide Latched;
      LookOnly(s, v.guardAlive, v.listing, v.presence);
    }
  }

  // ------------------------------------------------ what a finished run has seen

  /** The whole history behind a report. */
  ghost predicate Witnessed(kase: Case, h: seq<Event>) {
    var n := |h| - 4;
    && n >= 3
    && h[0] == SawPrepared && h[1].SawHeld? && SixDistinct(h[1].roles)
    && (forall i | 2 <= i < n :: h[i].SawVacant? || Turning(h[i]))
    && (exists i :: 2 <= i < n && h[i].SawVacant?)
    && (forall i, j | 2 <= i < n && 2 <= j < n && Turning(h[i]) && Turning(h[j]) :: i == j)
    && (forall i | 2 <= i < n && h[i].SawReplaced? :: kase == Replace(h[i].role))
    && (kase.Replace? ==> exists i :: 2 <= i < n && h[i] == SawReplaced(kase.role))
    && h[n..] == [SawBothDead, SawAbsent(Container), SawAbsent(OuterName), SawAbsent(Volume)]
  }

  /** What looking and waiting leave alone. */
  ghost predicate OnlyLooked(s: State, t: State) {
    && Inv(t) && t.phase == s.phase && t.kase == s.kase && t.acks == s.acks
    && t.ledger == s.ledger.(calls := t.ledger.calls, bytes := t.ledger.bytes)
  }

  lemma LookOnly(s: State, guardAlive: bool, listing: seq<Descriptor>, presence: Child)
    requires Inv(s) && s.phase >= 2
    ensures var r := LookVacant(s, guardAlive, listing, presence); r.Some? ==> OnlyLooked(s, r.value)
  {
    hide LookVacant, Orderly, Latched;
    LookKeeps(s, guardAlive, listing, presence);
    LookDecides(s, guardAlive, listing, presence);
  }

  lemma {:induction false} WaitKeeps(s: State, polls: seq<Poll>)
    requires Inv(s) && s.phase >= 2
    ensures var r := Wait(s, polls); r.Some? ==> OnlyLooked(s, r.value)
    decreases |polls|
  {
    hide LookVacant, Inv;
    if polls != [] {
      if s.closed {
        WaitKeeps(s, polls[1..]);
      } else {
        var p := polls[0];
        LookOnly(s, p.guardAlive, p.listing, p.presence);
        var t := LookVacant(s, p.guardAlive, p.listing, p.presence);
        if t.Some? {
          WaitKeeps(t.value, polls[1..]);
        }
      }
    }
  }

  lemma EvidenceSpends(s: State, f: Finale)
    ensures var r := ReadEvidence(s, f); r.Some? ==> Spends(s, r.value)
  {}

  lemma FindAllAbsentShape(s: State, f: Finale)
    ensures var r := FindAllAbsent(s, f);
      r.Some? ==> Spends(s.(history := s.history + [SawAbsent(Container), SawAbsent(OuterName), SawAbsent(Volume)]), r.value)
  {
    hide Command;
    CommandSpends(s, false, 1, f.container);
    var t1 := FindAbsent(s, Container, f.container);
    if t1.Some? {
      CommandSpends(t1.value, false, 1, f.outerName);
      var t2 := FindAbsent(t1.value, OuterName, f.outerName);
      if t2.Some? {
        CommandSpends(t2.value, false, 1, f.volume);
      }
    }
  }

  /** What `finish` adds to a run: the wait, then the final observations, and the counts. */
  lemma FinishShape(s: State, f: Finale)
    ensures var r := FinishSpec(s, f);
      r.Some? ==>
        && s.roles.Some? && Wait(s, f.polls).Some?
        && var w := Wait(s, f.polls).value; var t := r.value.state;
        && w.closed && (s.kase.Replace? ==> w.replaced)
        && t.history == w.history + [SawBothDead] + [SawAbsent(Container), SawAbsent(OuterName), SawAbsent(Volume)]
        && t.kase == w.kase && t.acks == w.acks && r.value.used == Total(t.ledger)
        && t.ledger.ackCalls == w.ledger.ackCalls && t.ledger.ackBytes == w.ledger.ackBytes
        && (if w.kase.Positive? || w.kase.GuardLoss?
            then t.ledger.knownCalls == f.resultCalls && t.ledger.knownBytes == f.resultBytes
            else t.ledger.knownCalls == w.ledger.knownCalls && t.ledger.knownBytes == w.ledger.knownBytes)
  {
    hide Wait, ReadEvidence, FindAllAbsent;
    var w := Wait(s, f.polls);
    if s.roles.Some? && w.Some? {
      var dead := w.value.(history := w.value.history + [SawBothDead]);
      EvidenceSpends(dead, f);
      var t2 := ReadEvidence(dead, f);
      if t2.Some? {
        FindAllAbsentShape(t2.value, f);
      }
    }
  }

  /** What a finished run has been shown at its end, by the environment. */
  predicate EndShown(kase: Case, f: Finale) {
    && !f.ownerAlive && f.sound && f.privateGone
    && Replies(f.container, 1) && Replies(f.outerName, 1) && Replies(f.volume, 1)
    && (kase.Expiry? ==> 0 < f.decision <= 4096)
    && (kase.Replace? || kase.LostAck? ==> 0 < f.request <= 131072)
    && (kase.LostAck? ==> 0 < f.control <= 131072)
    && (kase.Positive? || kase.GuardLoss? ==> 0 < f.resultSize <= 131072)
  }

  lemma CommandIs(s: State, preflight: bool, status: int, c: Child)
    requires status == 0 || status == 1
    ensures Command(s, preflight, status, c).Some? <==>
            Reservable(s.ledger, Usages(s), 1, if preflight then LIMIT + 1 else 17) && if preflight then Reports(c, status) else Replies(c, status)
    ensures var r := Command(s, preflight, status, c);
      && (r.Some? && !preflight ==> r.value == s.(ledger := Charged(s.ledger, 1, 0)))
      && (r.Some? && preflight ==> Printed(c.blocks, LIMIT).Some? && r.value == s.(ledger := Charged(s.ledger, 1, Printed(c.blocks, LIMIT).value)))
  {
    hide CommandSpec, Reservable, Replies, Reports;
    CommandMeans(s.ledger, Usages(s), preflight, c, status);
  }

  lemma AbsentMeans(s: State, f: Finale)
    ensures FindAllAbsent(s, f).Some? <==>
            && Reservable(s.ledger, Usages(s), 3, 17)
            && Replies(f.container, 1) && Replies(f.outerName, 1) && Replies(f.volume, 1)
    ensures var r := FindAllAbsent(s, f);
      r.Some? ==> r.value == s.(ledger := Charged(s.ledger, 3, 0),
                                history := s.history + [SawAbsent(Container)] + [SawAbsent(OuterName)] + [SawAbsent(Volume)])
  {
    hide Command, Replies;
    CommandIs(s, false, 1, f.container);
    var t1 := FindAbsent(s, Container, f.container);
    if t1.Some? {
      CommandIs(t1.value, false, 1, f.outerName);
      var t2 := FindAbsent(t1.value, OuterName, f.outerName);
      if t2.Some? {
        CommandIs(t2.value, false, 1, f.volume);
      }
    }
  }

  /** The bytes that the files of the end cost. */
  function EvidenceBytes(kase: Case, f: Finale): nat {
    match kase
    case Expiry => 2 * f.decision
    case Replace(_) => f.request
    case LostAck => f.request + f.control
    case _ => 0
  }

  lemma EvidenceMeans(s: State, f: Finale)
    requires Funded(s)
    ensures var r := ReadEvidence(s, f);
      && (r.Some? <==>
            && (s.kase.Expiry? ==> 0 < f.decision <= 4096) && (s.kase.Replace? || s.kase.LostAck? ==> 0 < f.request <= 131072)
            && (s.kase.LostAck? ==> 0 < f.control <= 131072)
            && Reservable(s.ledger, Usages(s), 0, if s.kase.Expiry? then 8192 else EvidenceBytes(s.kase, f)))
      && (r.Some? ==> r.value == s.(ledger := Charged(s.ledger, 0, EvidenceBytes(s.kase, f))))
  {}

  /**
    Exactly when `finish` returns: the observer had held the guard, its wait ended with the descriptors
    seen gone, a replacement was seen if the case is one, the owner is dead, the three presence reads
    find nothing, the private directory is gone and the files of the case are there; and the allowance
    is large enough. Anything else is refused.
  */
  lemma FinishMeans(s: State, f: Finale)
    requires s.phase >= 2 && Inv(s)
    ensures FinishSpec(s, f).Some? <==>
            && Wait(s, f.polls).Some? && var w := Wait(s, f.polls).value;
            && w.closed && (s.kase.Replace? ==> w.replaced) && EndShown(s.kase, f)
            && Reservable(w.ledger, Usages(w), 3, EvidenceBytes(s.kase, f) + 17)
            && (s.kase.Expiry? ==> Reservable(w.ledger, Usages(w), 0, 8192))
            && (s.kase.Positive? || s.kase.GuardLoss? ==> Reservable(w.ledger, Usages(w), 3, f.resultSize))
    ensures var r := FinishSpec(s, f);
      r.Some? ==>
        && r.value.used == Total(r.value.state.ledger)
        && r.value.upper.calls == r.value.used.calls + (if s.kase.Replace? || s.kase.LostAck? then 3 else 0)
        && r.value.upper.bytes == r.value.used.bytes
             + (if s.kase.Replace? || s.kase.LostAck? then 5 * 1048576 + 34 * 4096 + 2 * 65536 + 16384 + 256 * 4096 + 42 else 0)
  {
    hide Wait, ReadEvidence, FindAllAbsent, Inv, Replies;
    assert s.owner.Some? && s.cid.Some? && s.roles.Some? by { Retained(s); }
    if Wait(s, f.polls).Some? {
      WaitKeeps(s, f.polls);
      var w := Wait(s, f.polls).value;
      InvLatched(w);
      var dead := w.(history := w.history + [SawBothDead]);
      EvidenceMeans(dead, f);
      var t2 := ReadEvidence(dead, f);
      if t2.Some? {
        AbsentMeans(t2.value, f);
      }
    }
  }

  lemma Retained(s: State)
    requires Inv(s) && s.phase >= 2
    ensures s.owner.Some? && s.cid.Some? && s.roles.Some?
  {}

  lemma WitnessesOf(w: State, h: seq<Event>)
    requires Orderly(w) && Latched(w) && w.phase >= 2 && w.closed && (w.kase.Replace? ==> w.replaced)
    requires h == w.history + [SawBothDead] + [SawAbsent(Container), SawAbsent(OuterName), SawAbsent(Volume)]
    ensures Witnessed(w.kase, h)
  {
    hide SixDistinct;
    var g, n := w.history, |h| - 4;
    assert h[..n] == g;
    forall i | 0 <= i < n ensures h[i] == g[i] {}
    var listed := Sighted(g)[0];
    SightedIn(g, listed);
    var v :| 0 <= v < n && g[v] == SawVacant(listed);
    assert h[v].SawVacant?;
    if w.replaced {
      var i :| 0 <= i < n && g[i].SawReplaced?;
      assert h[i] == SawReplaced(w.kase.role);
    }
  }

  lemma FinishWitnessed(s: State, f: Finale)
    requires Inv(s) && FinishSpec(s, f).Some?
    ensures Witnessed(s.kase, FinishSpec(s, f).value.state.history)
  {
    hide FinishSpec, Witnessed, Orderly, Balanced;
    FinishShape(s, f);
    WaitKeeps(s, f.polls);
    WitnessesOf(Wait(s, f.polls).value, FinishSpec(s, f).value.state.history);
  }

  /**
    The protocol: when `finish` returns after any run of ticks, the observer saw prepared, then held
    with six distinct role directories, then at most one of replaced (for the role of the case) or
    closed, and the descriptors gone with the container still present, all before it saw both
    processes dead and the three resources absent. And the end is what the environment showed:
    the owner is dead, the three presence reads print nothing and exit with 1, the private directory is
    gone, and the files of the case were there.
  */
  lemma FinishedRunWitnessed(kase: Case, visits: seq<Visit>, f: Finale)
    requires Run(Initial(kase), visits).Some?
    requires FinishSpec(Run(Initial(kase), visits).value, f).Some?
    ensures Witnessed(kase, FinishSpec(Run(Initial(kase), visits).value, f).value.state.history)
    ensures EndShown(kase, f)
  {
    hide FinishSpec, Run, Witnessed, Inv, EndShown, Wait;
    RunKeeps(kase, visits);
    FinishWitnessed(Run(Initial(kase), visits).value, f);
    FinishedHeld(Run(Initial(kase), visits).value, f);
    FinishMeans(Run(Initial(kase), visits).value, f);
  }

  lemma FinishedHeld(s: State, f: Finale)
    requires Inv(s) && FinishSpec(s, f).Some?
    ensures s.phase >= 2
  {
    hide Wait, ReadEvidence, FindAllAbsent, ReadResult;
  }

  // ------------------------------------------------ which looks listed descriptors

  function Rows(visits: seq<Visit>): nat {
    if visits == [] then 0 else Rows(visits[..|visits| - 1]) + if visits[|visits| - 1].HasRow? then 1 else 0
  }

  predicate Watched(kase: Case) {
    !kase.Positive? && !kase.GuardLoss?
  }

  /** The look a visit makes, if it finds the descriptors gone: whether the guard was alive then. */
  function Sight(kase: Case, rows: nat, closed: bool, v: Visit): seq<bool> {
    match v
    case HasRow(row) => if row.stage.Closed? then [row.stage.guardAlive] else []
    case NoRow(guardAlive, listing, presence) =>
      if rows >= 2 && !closed && Watched(kase) && NothingHeld(guardAlive, listing) && presence.status == Some(0) then [guardAlive] else []
  }

  /** The same for all visits of a run, read off the visits alone. */
  function Sights(kase: Case, visits: seq<Visit>): seq<bool> {
    if visits == [] then []
    else
      var init := visits[..|visits| - 1];
      Sights(kase, init) + Sight(kase, Rows(init), Sights(kase, init) != [], visits[|visits| - 1])
  }

  /** The first poll that finds the descriptors gone, if none was found before. */
  function PollSights(polls: seq<Poll>): seq<bool> {
    if polls == [] then []
    else if NothingHeld(polls[0].guardAlive, polls[0].listing) && polls[0].presence.status == Some(0) then [polls[0].guardAlive]
    else PollSights(polls[1..])
  }

  lemma TickSights(s: State, v: Visit)
    requires Inv(s)
    ensures var r := TickSpec(s, v);
      r.Some? ==>
        && Sighted(r.value.history) == Sighted(s.history) + Sight(s.kase, s.phase, s.closed, v)
        && r.value.phase == s.phase + if v.HasRow? then 1 else 0
  {
    hide Open, Advance, LookVacant, Orderly, Balanced, Follows, Sighted, NothingHeld;
    StartIsBlank(s);
    InvLatched(s);
    if v.HasRow? {
      RowSights(s, v.row);
    } else if s.roles.Some? && !s.closed && Watched(s.kase) {
      LookDecides(s, v.guardAlive, v.listing, v.presence);
      SightedSnoc(s.history, SawVacant(v.guardAlive));
    }
  }

  lemma RowSights(s: State, row: Row)
    requires s.phase == 0 ==> s.history == []
    ensures var r := TickSpec(s, HasRow(row));
      r.Some? ==>
        && Sighted(r.value.history) == Sighted(s.history) + Sight(s.kase, s.phase, s.closed, HasRow(row))
        && r.value.phase == s.phase + 1
  {
    hide Open, Prepare, Hold, Displace, Shut, Follows, Sighted, SixDistinct, NothingHeld, Funded;
    OpenShape(s, row);
    var t1 := Open(s, row);
    if t1.Some? {
      AdvanceFollows(t1.value, row);
      var t2 := Advance(t1.value, row);
      if t2.Some? {
        FollowsBooks(t1.value, t2.value);
        if row.stage.Closed? {
          ShutFollows(t1.value, row.stage);
          ClosedSighted(t1.value, t2.value, row.stage.guardAlive);
        } else {
          OpenStageSights(t1.value, row);
        }
      }
    }
  }

  lemma OpenStageSights(s: State, row: Row)
    requires !row.stage.Closed? && Advance(s, row).Some? && (s.phase == 0 ==> s.history == [])
    ensures Sighted(Advance(s, row).value.history) == Sighted(s.history)
  {
    hide Prepare, Hold, Displace, Shut, Follows, Sighted;
    var t := Advance(s, row).value;
    AdvanceFollows(s, row);
    match row.stage
    case Prepared(_, _, _, _, _, _) =>
      PrepareFollows(s, row.owner, row.stage);
      FollowsSighted(s, t);
    case Held(_, _, _, _, _, _, _, _) =>
      HoldFollows(s, row.stage);
      FollowsSighted(s, t);
    case Replaced(_, _, _) =>
      DisplaceFollows(s, row.stage);
      SightedSnoc(s.history, SawReplaced(s.kase.role));
    case _ =>
  }

  lemma {:induction false} RunSights(kase: Case, visits: seq<Visit>)
    ensures var r := Run(Initial(kase), visits);
      r.Some? ==> r.value.phase == Rows(visits) && Sighted(r.value.history) == Sights(kase, visits)
    decreases |visits|
  {
    hide TickSpec, Inv, Sight;
    if visits != [] {
      var n := |visits| - 1;
      RunSights(kase, visits[..n]);
      RunKeeps(kase, visits[..n]);
      var t := Run(Initial(kase), visits[..n]);
      if t.Some? {
        assert t.value.closed <==> Sighted(t.value.history) != [] by { InvLatched(t.value); }
        TickSights(t.value, visits[n]);
      }
    }
  }

  lemma InvLatched(s: State)
    requires Inv(s)
    ensures (s.closed <==> Sighted(s.history) != []) && Funded(s)
  {}

  lemma {:induction false} WaitSights(s: State, polls: seq<Poll>)
    requires Inv(s) && s.phase >= 2
    ensures var r := Wait(s, polls);
      r.Some? ==> Sighted(r.value.history) == Sighted(s.history) + if s.closed then [] else PollSights(polls)
    decreases |polls|
  {
    hide LookVacant, Inv, Sighted, NothingHeld;
    if polls != [] {
      if s.closed {
        WaitSights(s, polls[1..]);
      } else {
        var p := polls[0];
        InvLatched(s);
        LookOnly(s, p.guardAlive, p.listing, p.presence);
        LookDecides(s, p.guardAlive, p.listing, p.presence);
        SightedSnoc(s.history, SawVacant(p.guardAlive));
        var t := LookVacant(s, p.guardAlive, p.listing, p.presence);
        if t.Some? {
          WaitSights(t.value, polls[1..]);
        }
      }
    }
  }

  /**
    Which looks a finished run rests on, read off its visits and polls: there is at least one, and a
    listing without role directories was seen with the guard alive exactly when one of the looks that
    found the descriptors gone met a living guard. A dead guard lists nothing and counts as well.
  */
  lemma FinishedRunListed(kase: Case, visits: seq<Visit>, f: Finale)
    requires Run(Initial(kase), visits).Some?
    requires FinishSpec(Run(Initial(kase), visits).value, f).Some?
    ensures var h := FinishSpec(Run(Initial(kase), visits).value, f).value.state.history;
      var sights := Sights(kase, visits) + if Sights(kase, visits) == [] then PollSights(f.polls) else [];
      && sights != [] && Sighted(h) == sights
      && (SawVacant(true) in h <==> true in sights)
  {
    hide FinishSpec, Run, Orderly, Balanced, Sighted;
    var s := Run(Initial(kase), visits).value;
    RunKeeps(kase, visits);
    RunSights(kase, visits);
    FinishShape(s, f);
    WaitKeeps(s, f.polls);
    WaitSights(s, f.polls);
    var w, h := Wait(s, f.polls).value, FinishSpec(s, f).value.state.history;
    EndSighted(w.history, h);
    SightedIn(h, true);
  }

  lemma EndSighted(g: seq<Event>, h: seq<Event>)
    requires h == g + [SawBothDead] + [SawAbsent(Container), SawAbsent(OuterName), SawAbsent(Volume)]
    ensures Sighted(h) == Sighted(g)
  {
    hide Sighted;
    SightedSnoc(g, SawBothDead);
    var dead := g + [SawBothDead];
    SightedSnoc(dead, SawAbsent(Container));
    SightedSnoc(dead + [SawAbsent(Container)], SawAbsent(OuterName));
    SightedSnoc(dead + [SawAbsent(Container)] + [SawAbsent(OuterName)], SawAbsent(Volume));
    assert h == dead + [SawAbsent(Container)] + [SawAbsent(OuterName)] + [SawAbsent(Volume)];
  }

  // ------------------------------------------------ nothing is counted twice

  /** The holder adds every acknowledged delta to its own work before it publishes the next row. */
  ghost predicate Honest(kase: Case, visits: seq<Visit>, own: nat -> Usage) {
    forall i | 0 <= i < |visits| && visits[i].HasRow? && Run(Initial(kase), visits[..i]).Some? ::
      var s := Run(Initial(kase), visits[..i]).value;
      visits[i].row.calls == own(s.phase).calls + AckedCalls(s.acks) && visits[i].row.bytes == own(s.phase).bytes + AckedBytes(s.acks)
  }

  /** What is known is the holder's own work at its last row, and all acknowledgements but the last. */
  ghost predicate Known(s: State, own: nat -> Usage) {
    if s.phase == 0 then s.ledger.knownCalls == s.ledger.knownBytes == 0
    else
      && |s.acks| == s.phase
      && s.ledger.knownCalls == own(s.phase - 1).calls + s.ledger.ackCalls - s.acks[s.phase - 1].calls
      && s.ledger.knownBytes == own(s.phase - 1).bytes + s.ledger.ackBytes - s.acks[s.phase - 1].bytes
  }

  lemma TickKnown(s: State, v: Visit, own: nat -> Usage)
    requires Inv(s) && Known(s, own)
    requires v.HasRow? ==> v.row.calls == own(s.phase).calls + AckedCalls(s.acks) && v.row.bytes == own(s.phase).bytes + AckedBytes(s.acks)
    ensures var r := TickSpec(s, v); r.Some? ==> Known(r.value, own)
  {
    hide Open, Advance, LookVacant, Orderly, Latched, SixDistinct, Follows;
    StartIsBlank(s);
    if v.HasRow? {
      OpenShape(s, v.row);
      var t1 := Open(s, v.row);
      if t1.Some? {
        AdvanceFollows(t1.value, v.row);
        var t2 := Advance(t1.value, v.row);
        if t2.Some? {
          FollowsBooks(t1.value, t2.value);
        }
      }
    } else {
      LookDecides(s, v.guardAlive, v.listing, v.presence);
    }
  }

  lemma {:induction false} RunKnown(kase: Case, visits: seq<Visit>, own: nat -> Usage)
    requires Honest(kase, visits, own)
    ensures var r := Run(Initial(kase), visits); r.Some? ==> Known(r.value, own)
    decreases |visits|
  {
    hide TickSpec, Inv;
    if visits != [] {
      var n := |visits| - 1;
      var shorter := visits[..n];
      forall i | 0 <= i < n ensures visits[i] == shorter[i] && visits[..i] == shorter[..i] {}
      RunKnown(kase, shorter, own);
      RunKeeps(kase, shorter);
      var t := Run(Initial(kase), shorter);
      if t.Some? {
        TickKnown(t.value, visits[n], own);
      }
    }
  }

  /**
    The report: where the holder lives to publish a result, the calls it did itself and the calls of
    the observer, each once. Elsewhere the last acknowledged delta is in neither term: nothing is
    counted twice, and the report is exact only if that delta was nothing.
  */
  lemma ReportCounts(kase: Case, visits: seq<Visit>, f: Finale, own: nat -> Usage)
    requires Honest(kase, visits, own) && Run(Initial(kase), visits).Some?
    requires FinishSpec(Run(Initial(kase), visits).value, f).Some?
    ensures var s := Run(Initial(kase), visits).value; var r := FinishSpec(s, f).value; var n := s.phase;
      && 2 <= n == |s.acks| && r.state.acks == s.acks
      && (if kase.Positive? || kase.GuardLoss? then
            && (f.resultCalls == own(n).calls + AckedCalls(s.acks) ==> r.used.calls == own(n).calls + r.state.ledger.calls)
            && (f.resultBytes == own(n).bytes + AckedBytes(s.acks) ==> r.used.bytes == own(n).bytes + r.state.ledger.bytes)
          else
            && r.used.calls == own(n - 1).calls + r.state.ledger.calls - s.acks[n - 1].calls
            && r.used.bytes == own(n - 1).bytes + r.state.ledger.bytes - s.acks[n - 1].bytes
            && s.acks[n - 1].calls >= 0 && s.acks[n - 1].bytes >= 1 && (n == 2 ==> s.acks[n - 1].calls >= 1))
  {
    hide FinishSpec, Run, Orderly, Honest, Wait;
    var s := Run(Initial(kase), visits).value;
    RunKeeps(kase, visits);
    RunKnown(kase, visits, own);
    FinishShape(s, f);
    WaitKeeps(s, f.polls);
  }

  /**
    The exact condition: for honest rows, and an honest result where there is one, the report is the
    holder's work and the observer's, each once, if and only if the case is one in which the holder
    lives to publish a result. Everywhere else it is short by at least one byte.
  */
  lemma ReportExactIff(kase: Case, visits: seq<Visit>, f: Finale, own: nat -> Usage, work: Usage)
    requires Honest(kase, visits, own) && Run(Initial(kase), visits).Some?
    requires FinishSpec(Run(Initial(kase), visits).value, f).Some?
    requires var s := Run(Initial(kase), visits).value;
      && s.phase > 0 && own(s.phase - 1).calls <= work.calls && own(s.phase - 1).bytes <= work.bytes
      && (kase.Positive? || kase.GuardLoss? ==>
            f.resultCalls == work.calls + AckedCalls(s.acks) && f.resultBytes == work.bytes + AckedBytes(s.acks))
    ensures var r := FinishSpec(Run(Initial(kase), visits).value, f).value; var l := r.state.ledger;
      r.used == Usage(work.calls + l.calls, work.bytes + l.bytes) <==> kase.Positive? || kase.GuardLoss?
  {
    hide FinishSpec, Run, Orderly, Honest, Wait;
    var s := Run(Initial(kase), visits).value;
    RunKeeps(kase, visits);
    RunKnown(kase, visits, own);
    FinishShape(s, f);
    WaitKeeps(s, f.polls);
  }

  /**
    What the allowance bounds: with honest rows the true total, the holder's work at its last row and
    the observer's, stays within the limits up to the last acknowledged delta.
  */
  lemma TrueTotalBounded(kase: Case, visits: seq<Visit>, own: nat -> Usage)
    requires Honest(kase, visits, own) && Run(Initial(kase), visits).Some? && Run(Initial(kase), visits).value.phase > 0
    ensures var s := Run(Initial(kase), visits).value; var n := s.phase;
      && n == |s.acks|
      && own(n - 1).calls + s.ledger.calls + Usages(s).calls <= MAX_CALLS + s.acks[n - 1].calls
      && own(n - 1).bytes + s.ledger.bytes + Usages(s).bytes <= MAX_BYTES + s.acks[n - 1].bytes
  {
    hide Run, Orderly, Latched, Honest;
    RunKeeps(kase, visits);
    RunKnown(kase, visits, own);
  }

  // ------------------------------------------------ a run that finishes

  /** A command that prints nothing and exits with the given status. */
  function Quiet(status: int): Child {
    Child(true, [Block(0, false)], Some(status))
  }

  lemma QuietAnswers(s: State, preflight: bool, status: int)
    requires status in {0, 1} && Reservable(s.ledger, Usages(s), 1, if preflight then LIMIT + 1 else 17)
    ensures Command(s, preflight, status, Quiet(status)) == Some(s.(ledger := Charged(s.ledger, 1, 0)))
  {
    var l := Charged(s.ledger, 1, 0);
    assert Charged(l, 0, 0) == l;
  }

  /** The directory object of a role. */
  function Place(role: Role): Object {
    Object(64769, match role
                  case Data => 1311
                  case Media => 1312
                  case Consume => 1313
                  case Export => 1314
                  case Pgdata => 1315
                  case Redisdata => 1316)
  }

  const LINK: nat := 80

  function Shows(role: Role): Descriptor {
    Descriptor(true, Some(LINK), Some(role), Some(Place(role)), true)
  }

  function SixListed(): seq<Descriptor> {
    [Shows(Data), Shows(Media), Shows(Consume), Shows(Export), Shows(Pgdata), Shows(Redisdata)]
  }

  /** Descriptors of a guard that has closed its role directories: one socket. */
  function SocketListed(): seq<Descriptor> {
    [Descriptor(true, Some(15), None, Some(Object(8, 40211)), false)]
  }

  function SixHeld(): map<Role, Object> {
    map role | role in ROLES :: Place(role)
  }

  /** One more distinct role of a listing. */
  lemma ScanOne(l: Ledger, u: Usage, index: nat, role: Role, rest: seq<Descriptor>, found: map<Role, Object>)
    requires index < MAX_DESCRIPTORS && Affordable(Charged(l, 0, LINK), u) && role !in found
    ensures ScanDescriptors(l, u, index, [Shows(role)] + rest, true, found)
            == ScanDescriptors(Charged(l, 0, LINK), u, index + 1, rest, true, found[role := Place(role)])
  {
    assert ([Shows(role)] + rest)[1..] == rest;
  }

  lemma ScanSix(l: Ledger, u: Usage)
    requires Reservable(l, u, 0, MAX_DESCRIPTORS * MAX_LINK)
    ensures InventorySpec(l, u, true, SixListed(), true) == Some(Listed(Charged(l, 0, 6 * LINK), SixHeld()))
  {
    hide ScanDescriptors, Shows, Place, Affordable;
    var all := SixListed();
    var none: map<Role, Object> := map[];
    var m1 := none[Data := Place(Data)];
    var m2 := m1[Media := Place(Media)];
    var m3 := m2[Consume := Place(Consume)];
    var m4 := m3[Export := Place(Export)];
    var m5 := m4[Pgdata := Place(Pgdata)];
    var m6 := m5[Redisdata := Place(Redisdata)];
    forall k | 1 <= k <= 6 ensures Affordable(Charged(l, 0, k * LINK), u) { LinksAffordable(l, u, k); }
    assert all == [Shows(Data)] + all[1..];
    ScanOne(l, u, 0, Data, all[1..], none);
    assert all[1..] == [Shows(Media)] + all[2..];
    ScanOne(Charged(l, 0, 1 * LINK), u, 1, Media, all[2..], m1);
    assert all[2..] == [Shows(Consume)] + all[3..];
    ScanOne(Charged(l, 0, 2 * LINK), u, 2, Consume, all[3..], m2);
    assert all[3..] == [Shows(Export)] + all[4..];
    ScanOne(Charged(l, 0, 3 * LINK), u, 3, Export, all[4..], m3);
    assert all[4..] == [Shows(Pgdata)] + all[5..];
    ScanOne(Charged(l, 0, 4 * LINK), u, 4, Pgdata, all[5..], m4);
    assert all[5..] == [Shows(Redisdata)] + all[6..];
    ScanOne(Charged(l, 0, 5 * LINK), u, 5, Redisdata, all[6..], m5);
    ScanNone(Charged(l, 0, 6 * LINK), u, 6, m6);
    assert all[6..] == [];
    assert m6 == SixHeld();
  }

  lemma ScanNone(l: Ledger, u: Usage, index: nat, found: map<Role, Object>)
    ensures ScanDescriptors(l, u, index, [], true, found) == Some(Listed(l, found))
  {}

  lemma LinksAffordable(l: Ledger, u: Usage, k: nat)
    requires Reservable(l, u, 0, MAX_DESCRIPTORS * MAX_LINK) && k <= 6
    ensures Affordable(Charged(l, 0, k * LINK), u)
  {}

  /**
    An owner lost after the held row: two rows, one look at the descriptors, and the end. The files
    have plausible sizes, and the holder's rows report its own work and what was acknowledged.
  */
  function LostOwnerRun(): seq<Visit> {
    [HasRow(PreparedRow()), HasRow(HeldRow()), NoRow(true, SocketListed(), Quiet(0))]
  }

  function PreparedRow(): Row {
    Row(900, true, "o", 8, 30000, Prepared(true, true, 300, 700, Quiet(0), 700))
  }

  function HeldRow(): Row {
    Row(950, true, "o", 13, 42600, Held(true, true, "c", Quiet(0), SixListed(), r => Some(Place(r)), 1200, 4000))
  }

  function LostOwnerEnd(): Finale {
    Finale([], false, true, 600, 500, 500, Quiet(1), Quiet(1), Quiet(1), true, 800, 0, 0)
  }

  /** The holder's own work at its two rows. */
  function LostOwnerWork(): nat -> Usage {
    n => if n == 0 then Usage(8, 30000) else Usage(12, 40000)
  }

  function AfterPrepared(): State {
    State(OwnerLoss, 1, Ledger(1, 2600, 1, 2600, 8, 30000), Some("o"), None, None, false, false, [Ack(1, 2600)], [SawPrepared])
  }

  function AfterHeld(): State {
    State(OwnerLoss, 2, Ledger(2, 5230, 2, 5230, 13, 42600), Some("o"), Some("c"), Some(SixHeld()), false, false,
          [Ack(1, 2600), Ack(1, 2630)], [SawPrepared, SawHeld(SixHeld())])
  }

  function AfterLook(): State {
    SeenVacant(AfterHeld(), true).(ledger := Ledger(3, 5245, 2, 5230, 13, 42600))
  }

  lemma Reads(s: State, size: nat)
    requires 0 < size <= MAX_PRIVATE && Affordable(Charged(s.ledger, 0, size), Usages(s))
    ensures ReadFile(s, size) == Some(s.(ledger := Charged(s.ledger, 0, size)))
  {}

  /** The prepared row of the example, once opened. */
  lemma IsPrepared(s: State, e: Stage)
    requires e == Prepared(true, true, 300, 700, Quiet(0), 700) && s.owner.None? && s.phase == 0
    requires Reservable(s.ledger, Usages(s), 1, LIMIT + 1701)
    ensures Prepare(s, "o", e) == Some(s.(owner := Some("o"), ledger := Charged(s.ledger, 1, 1700), history := s.history + [SawPrepared]))
  {
    hide Command, ReadFile;
    Reads(s, 300);
    var marked := s.(owner := Some("o"), ledger := Charged(s.ledger, 0, 300));
    Reads(marked, 700);
    var compared := marked.(ledger := Charged(s.ledger, 0, 1000));
    QuietAnswers(compared, true, 0);
    Reads(compared.(ledger := Charged(s.ledger, 1, 1000)), 700);
  }

  lemma OpensRow(s: State, row: Row)
    requires row.sound && 0 < row.size <= MAX_PRIVATE && Affordable(Charged(s.ledger, 0, row.size), Usages(s))
    requires s.ledger.knownCalls <= row.calls <= MAX_CALLS && s.ledger.knownBytes <= row.bytes <= MAX_BYTES
    requires 0 <= s.ledger.knownCalls && 0 <= s.ledger.knownBytes
    ensures Open(s, row)
            == Some(s.(ledger := Charged(s.ledger, 0, row.size).(knownCalls := row.calls, knownBytes := row.bytes)))
  {
    hide Affordable;
  }

  lemma AdvancePrepared(s: State, row: Row)
    requires row.stage.Prepared?
    ensures Advance(s, row) == Prepare(s, row.owner, row.stage)
  {
    hide Prepare;
  }

  function PreparedReady(): State {
    Initial(OwnerLoss).(ledger := Ledger(0, 900, 0, 0, 8, 30000))
  }

  function PreparedDone(): State {
    PreparedReady().(owner := Some("o"), ledger := Ledger(1, 2600, 0, 0, 8, 30000), history := [SawPrepared])
  }

  lemma OpensFirst(s: State, row: Row)
    requires s.ledger == Ledger(0, 0, 0, 0, 0, 0) && Usages(s) == Usage(0, 0)
    requires row.sound && row.size == 900 && row.calls == 8 && row.bytes == 30000
    ensures Open(s, row) == Some(s.(ledger := Ledger(0, 900, 0, 0, 8, 30000)))
  {
    hide Open;
    OpensRow(s, row);
  }

  lemma PreparedOpens()
    ensures Open(Initial(OwnerLoss), PreparedRow()) == Some(PreparedReady())
  {
    hide Open;
    OpensFirst(Initial(OwnerLoss), PreparedRow());
  }

  lemma PreparedAdvances()
    ensures Advance(PreparedReady(), PreparedRow()) == Some(PreparedDone())
  {
    hide Advance, Prepare, Quiet;
    AdvancePrepared(PreparedReady(), PreparedRow());
    IsPrepared(PreparedReady(), PreparedRow().stage);
    assert PreparedReady().history + [SawPrepared] == [SawPrepared];
  }

  lemma LostOwnerPrepared()
    ensures TickSpec(Initial(OwnerLoss), HasRow(PreparedRow())) == Some(AfterPrepared())
  {
    hide Open, Advance, TickSpec, PreparedRow;
    PreparedOpens();
    PreparedAdvances();
    TickOfRow(Initial(OwnerLoss), PreparedRow(), PreparedReady(), PreparedDone());
    assert PreparedDone().acks + [Ack(1, 2600)] == [Ack(1, 2600)];
  }

  lemma SixHeldDistinct()
    ensures SixDistinct(SixHeld()) && forall role | role in SixHeld() :: SixHeld()[role] == Place(role)
  {}

  /** The held row of the example, once opened, when its six directories are where they should be. */
  lemma SixAreHeld(s: State, e: Stage)
    requires e.Held? && s.phase == 1 && e.guardAlive && e.sound && !s.kase.Expiry?
    requires e.presence == Quiet(0) && e.listing == SixListed() && e.lease == 1200 && forall r :: e.identity(r) == Some(Place(r))
    requires Reservable(s.ledger, Usages(s), 1, MAX_DESCRIPTORS * MAX_LINK)
    ensures Hold(s, e) == Some(s.(cid := Some(e.cid), ledger := Charged(s.ledger, 1, 6 * LINK + 1200), roles := Some(SixHeld()),
                                  history := s.history + [SawHeld(SixHeld())]))
  {
    hide Command, SixListed, InventorySpec, ReadFile, SixDistinct, SixHeld, Place;
    var named := s.(cid := Some(e.cid));
    QuietAnswers(named, false, 0);
    var asked := named.(ledger := Charged(s.ledger, 1, 0));
    ScanSix(asked.ledger, Usages(s));
    SixHeldDistinct();
    Reads(asked.(ledger := Charged(asked.ledger, 0, 6 * LINK), roles := Some(SixHeld())), 1200);
  }

  lemma TickOfRow(s: State, row: Row, ready: State, advanced: State)
    requires Open(s, row) == Some(ready) && Advance(ready, row) == Some(advanced)
    ensures TickSpec(s, HasRow(row)) == Some(Acknowledge(advanced))
  {
    hide Open, Advance;
  }

  lemma AdvanceHeld(s: State, row: Row)
    requires row.stage.Held? && s.owner == Some(row.owner)
    ensures Advance(s, row) == Hold(s, row.stage)
  {
    hide Hold;
  }

  lemma LostOwnerHeld()
    ensures TickSpec(AfterPrepared(), HasRow(HeldRow())) == Some(AfterHeld())
  {
    hide Open, Advance, Hold, TickSpec, SixListed, SixHeld, Place, Quiet;
    var row := HeldRow();
    var ready := AfterPrepared().(ledger := Ledger(1, 3550, 1, 2600, 13, 42600));
    OpensRow(AfterPrepared(), row);
    AdvanceHeld(ready, row);
    SixAreHeld(ready, row.stage);
    TickOfRow(AfterPrepared(), row, ready, Hold(ready, row.stage).value);
    assert ready.history + [SawHeld(SixHeld())] == [SawPrepared, SawHeld(SixHeld())];
    assert ready.acks + [Ack(1, 2630)] == [Ack(1, 2600), Ack(1, 2630)];
  }

  lemma ScanSocket(l: Ledger, u: Usage)
    requires Reservable(l, u, 0, MAX_DESCRIPTORS * MAX_LINK)
    ensures InventorySpec(l, u, true, SocketListed(), false) == Some(Listed(Charged(l, 0, 15), map[]))
  {
    assert SocketListed()[1..] == [];
  }

  lemma LostOwnerLooked()
    ensures TickSpec(AfterHeld(), NoRow(true, SocketListed(), Quiet(0))) == Some(AfterLook())
  {
    hide InventorySpec, SixListed, SocketListed, SixHeld, Place;
    ScanSocket(AfterHeld().ledger, Usages(AfterHeld()));
    QuietAnswers(AfterHeld().(ledger := Ledger(2, 5245, 2, 5230, 13, 42600)), false, 0);
  }

  lemma QuietlyAbsent(s: State, kind: Kind)
    requires Reservable(s.ledger, Usages(s), 1, 17)
    ensures FindAbsent(s, kind, Quiet(1)) == Some(s.(ledger := Charged(s.ledger, 1, 0), history := s.history + [SawAbsent(kind)]))
  {
    hide Command;
    QuietAnswers(s, false, 1);
  }

  lemma AllQuietlyAbsent(s: State, f: Finale)
    requires f.container == f.outerName == f.volume == Quiet(1) && Reservable(s.ledger, Usages(s), 3, 17)
    ensures var r := FindAllAbsent(s, f);
      r.Some? && r.value.kase == s.kase && r.value.replaced == s.replaced && r.value.ledger == Charged(s.ledger, 3, 0)
  {
    hide FindAbsent;
    QuietlyAbsent(s, Container);
    var one := FindAbsent(s, Container, Quiet(1)).value;
    QuietlyAbsent(one, OuterName);
    QuietlyAbsent(FindAbsent(one, OuterName, Quiet(1)).value, Volume);
  }

  lemma LostOwnerEnds()
    ensures var r := FinishSpec(AfterLook(), LostOwnerEnd());
      r.Some? && r.value.used == Usage(17, 42615) && r.value.state.ledger.calls == 6 && r.value.state.ledger.bytes == 5245
  {
    hide FindAllAbsent, SixHeld, Quiet;
    AllQuietlyAbsent(AfterLook().(history := AfterLook().history + [SawBothDead]), LostOwnerEnd());
  }

  /**
    A run that finishes, and a report that is short. The rows are honest; the holder made 12 calls and
    the observer 6, and 17 are reported; of 45245 bytes 42615 are reported.
  */
  lemma LostOwnerReport()
    ensures Run(Initial(OwnerLoss), LostOwnerRun()) == Some(AfterLook())
    ensures Honest(OwnerLoss, LostOwnerRun(), LostOwnerWork())
    ensures var r := FinishSpec(AfterLook(), LostOwnerEnd());
      r.Some? && r.value.used == Usage(17, 42615)
      && r.value.state.ledger.calls == 6 && r.value.state.ledger.bytes == 5245
      && LostOwnerWork()(1) == Usage(12, 40000)
  {
    hide TickSpec, FinishSpec, SixListed, SocketListed, SixHeld, Place, Quiet;
    LostOwnerPrepared();
    LostOwnerHeld();
    LostOwnerLooked();
    LostOwnerEnds();
    var visits, start := LostOwnerRun(), Initial(OwnerLoss);
    assert Run(start, visits[..0]) == Some(start);
    assert visits[..1][..0] == visits[..0] && visits[..2][..1] == visits[..1] && visits[..3][..2] == visits[..2];
    assert Run(start, visits[..1]) == Some(AfterPrepared());
    assert Run(start, visits[..2]) == Some(AfterHeld());
    assert visits[..3] == visits;
    AckedSnoc([], Ack(1, 2600));
    assert [] + [Ack(1, 2600)] == [Ack(1, 2600)];
  }

  /** In every watched case a guard already dead counts as descriptors gone: nothing is listed then. */
  lemma DeadGuardLooksVacant(s: State, listing: seq<Descriptor>)
    requires s.phase >= 2 && s.roles.Some? && !s.closed && Watched(s.kase) && Reservable(s.ledger, Usages(s), 1, 17)
    ensures TickSpec(s, NoRow(false, listing, Quiet(0))) == Some(SeenVacant(s.(ledger := Charged(s.ledger, 1, 0)), false))
  {
    QuietAnswers(s, false, 0);
  }

  /** The same run, except that the guard is dead when the observer looks. */
  function DeadGuardRun(): seq<Visit> {
    [HasRow(PreparedRow()), HasRow(HeldRow()), NoRow(false, SocketListed(), Quiet(0))]
  }

  function AfterDeadLook(): State {
    SeenVacant(AfterHeld(), false).(ledger := Ledger(3, 5230, 2, 5230, 13, 42600))
  }

  lemma DeadGuardLooked()
    ensures TickSpec(AfterHeld(), NoRow(false, SocketListed(), Quiet(0))) == Some(AfterDeadLook())
  {
    hide SocketListed, Quiet, SixHeld, TickSpec;
    DeadGuardLooksVacant(AfterHeld(), SocketListed());
  }

  lemma DeadGuardEnds()
    ensures FinishSpec(AfterDeadLook(), LostOwnerEnd()).Some?
  {
    hide FindAllAbsent, SixHeld, Quiet;
    AllQuietlyAbsent(AfterDeadLook().(history := AfterDeadLook().history + [SawBothDead]), LostOwnerEnd());
  }

  /** A run that finishes although no listing without role directories was ever seen. */
  lemma DeadGuardFinishes()
    ensures Run(Initial(OwnerLoss), DeadGuardRun()) == Some(AfterDeadLook())
    ensures var r := FinishSpec(AfterDeadLook(), LostOwnerEnd());
      r.Some? && SawVacant(true) !in r.value.state.history && SawVacant(false) in r.value.state.history
  {
    hide TickSpec, FinishSpec, SixHeld, Place, Quiet, Sighted, PreparedRow, HeldRow, SocketListed;
    LostOwnerPrepared();
    LostOwnerHeld();
    DeadGuardLooked();
    DeadGuardEnds();
    var visits, start := DeadGuardRun(), Initial(OwnerLoss);
    assert Run(start, visits[..0]) == Some(start);
    assert visits[..1][..0] == visits[..0] && visits[..2][..1] == visits[..1] && visits[..3][..2] == visits[..2];
    assert Run(start, visits[..1]) == Some(AfterPrepared());
    assert Run(start, visits[..2]) == Some(AfterHeld());
    assert visits[..3] == visits;
    FinishShape(AfterDeadLook(), LostOwnerEnd());
  }

  // ------------------------------------------------ the observer

  class CustodyObserver {
    const kase: Case
    var phase: nat
    var ledger: Ledger
    var owner: Option<Id>
    var cid: Option<Id>
    var roles: Option<map<Role, Object>>
    var closedBeforeRemoval: bool
    var replacementObserved: bool
    var acks: seq<Ack>
    ghost var history: seq<Event>

    ghost function Now(): State
      reads this
    {
      State(kase, phase, ledger, owner, cid, roles, closedBeforeRemoval, replacementObserved, acks, history)
    }

    constructor (kase: Case)
      ensures this.kase == kase && Now() == Initial(kase)
    {
      this.kase := kase;
      phase, ledger, owner, cid, roles := 0, Ledger(0, 0, 0, 0, 0, 0), None, None, None;
      closedBeforeRemoval, replacementObserved, acks, history := false, false, [], [];
    }

    function Unsure(): Usage
      reads this
    {
      Uncertainty(kase, replacementObserved)
    }

    method Spend(calls: nat, size: nat) returns (ok: bool)
      modifies this`ledger
      ensures ledger == Charged(old(ledger), calls, size) && ok == Affordable(ledger, Unsure())
    {
      ledger := Charged(ledger, calls, size);
      ok := Affordable(ledger, Unsure());
    }

    /** `read_phase`: one private file, charged by its size. */
    method ReadPhase(size: nat) returns (ok: bool)
      modifies this`ledger
      ensures ok <==> ReadFile(old(Now()), size).Some?
      ensures ok ==> ReadFile(old(Now()), size) == Some(Now())
    {
      if !(0 < size <= MAX_PRIVATE) {
        return false;
      }
      ok := Spend(0, size);
    }

    method Ask(preflight: bool, c: Child) returns (r: Result<int, Refusal>)
      modifies this`ledger
      ensures var spec := CommandSpec(old(ledger), Unsure(), preflight, c);
        r == match spec { case Err(e) => Err(e) case Ok(a) => Ok(a.status) }
      ensures var spec := CommandSpec(old(ledger), Unsure(), preflight, c);
        spec.Ok? ==> ledger == spec.value.ledger
      ensures r != Err(OverCharged)
    {
      hide Affordable, Reservable, Charged;
      ReserveCovers(ledger, Unsure(), preflight, c);
      ghost var start, u := ledger, Unsure();
      if !c.permitted {
        return Err(NotPermitted);
      }
      var maximum := if preflight then LIMIT else 16;
      if !Reservable(ledger, Unsure(), 1, maximum + 1) {
        return Err(NoAllowance);
      }
      var ok := Spend(1, 0);
      if !ok {
        return Err(OverCharged);
      }
      var got, i := 0, 0;
      while i < |c.blocks|
        invariant 0 <= i <= |c.blocks| && 0 <= got <= maximum && Unsure() == u
        invariant CommandSpec(start, u, preflight, c) == Drain(ledger, u, maximum, !preflight, got, c.blocks[i..], c.status)
      {
        assert c.blocks[i..][0] == c.blocks[i] && c.blocks[i..][1..] == c.blocks[i + 1..];
        if c.blocks[i].late {
          return Err(Late);
        }
        var size := BlockSize(c.blocks[i].size, maximum + 1 - got);
        ok := Spend(0, size);
        if !ok {
          return Err(OverCharged);
        }
        if size == 0 {
          if c.status.None? {
            return Err(Late);
          }
          if c.status.value !in {0, 1} || (!preflight && got > 0) {
            return Err(BadStatus);
          }
          return Ok(c.status.value);
        }
        if got + size > maximum {
          return Err(TooLong);
        }
        got, i := got + size, i + 1;
      }
      return Err(Late);
    }

    method Answered(preflight: bool, status: int, c: Child) returns (ok: bool)
      modifies this`ledger
      ensures ok <==> Command(old(Now()), preflight, status, c).Some?
      ensures ok ==> Command(old(Now()), preflight, status, c) == Some(Now())
    {
      hide CommandSpec;
      var r := Ask(preflight, c);
      ok := r == Ok(status);
    }

    method Inventory(guardAlive: bool, listing: seq<Descriptor>, strict: bool) returns (r: Option<map<Role, Object>>)
      modifies this`ledger
      ensures var spec := InventorySpec(old(ledger), Unsure(), guardAlive, listing, strict);
        && (r.Some? <==> spec.Some?)
        && (r.Some? ==> spec.value == Listed(ledger, r.value))
    {
      hide Affordable, Reservable, Charged;
      if !guardAlive {
        return Some(map[]);
      }
      if !Reservable(ledger, Unsure(), 0, MAX_DESCRIPTORS * MAX_LINK) {
        return None;
      }
      ghost var start, u := ledger, Unsure();
      var found: map<Role, Object> := map[];
      var i := 0;
      while i < |listing|
        invariant 0 <= i <= |listing| && Unsure() == u
        invariant ScanDescriptors(start, u, 0, listing, strict, map[]) == ScanDescriptors(ledger, u, i, listing[i..], strict, found)
      {
        assert listing[i..][0] == listing[i] && listing[i..][1..] == listing[i + 1..];
        var d := listing[i];
        if i >= MAX_DESCRIPTORS || !d.numeric {
          return None;
        }
        if d.link.Some? {
          var ok := Spend(0, d.link.value);
          if !ok || d.link.value > MAX_LINK {
            return None;
          }
          if d.target.Some? && d.role.Some? {
            if !d.directory || (strict && d.role.value in found) {
              return None;
            }
            if d.role.value !in found {
              found := found[d.role.value := d.target.value];
            }
          }
        }
        i := i + 1;
      }
      return Some(found);
    }

    method Look(guardAlive: bool, listing: seq<Descriptor>, presence: Child) returns (ok: bool)
      modifies this
      ensures ok <==> LookVacant(old(Now()), guardAlive, listing, presence).Some?
      ensures ok ==> LookVacant(old(Now()), guardAlive, listing, presence) == Some(Now())
    {
      hide InventorySpec, CommandSpec;
      var held := Inventory(guardAlive, listing, false);
      if held.None? {
        return false;
      }
      if held.value != map[] {
        return true;
      }
      var r := Ask(false, presence);
      if r == Ok(0) {
        closedBeforeRemoval, history := true, history + [SawVacant(guardAlive)];
      }
      return r.Ok?;
    }

    method PrepareRow(id: Id, e: Stage) returns (ok: bool)
      requires e.Prepared?
      modifies this
      ensures ok <==> Prepare(old(Now()), id, e).Some?
      ensures ok ==> Prepare(old(Now()), id, e) == Some(Now())
    {
      hide ReadFile, Command;
      if owner.Some? || phase != 0 || !e.nullCid || !e.sound {
        return false;
      }
      ok := ReadPhase(e.marker);
      if !ok {
        return;
      }
      owner := Some(id);
      ok := ReadPhase(e.original);
      if !ok {
        return;
      }
      ok := Answered(true, 0, e.preflight);
      if !ok {
        return;
      }
      ok := ReadPhase(e.refreshed);
      history := history + [SawPrepared];
    }

    method HoldRow(e: Stage) returns (ok: bool)
      requires e.Held?
      modifies this
      ensures ok <==> Hold(old(Now()), e).Some?
      ensures ok ==> Hold(old(Now()), e) == Some(Now())
    {
      hide ReadFile, Command, InventorySpec, Reservable, SixDistinct;
      if phase != 1 || !e.guardAlive || !e.sound {
        return false;
      }
      cid := Some(e.cid);
      ok := Answered(false, 0, e.presence);
      if !ok {
        return;
      }
      var held := Inventory(e.guardAlive, e.listing, true);
      if held.None? || !SixDistinct(held.value) || exists role | role in held.value :: e.identity(role) != Some(held.value[role]) {
        return false;
      }
      roles := held;
      ok := ReadPhase(e.lease);
      if !ok {
        return;
      }
      if kase.Expiry? {
        if !Reservable(ledger, Unsure(), 0, 128 * 1024 + 8192) {
          return false;
        }
        ok := ReadPhase(e.manifest);
      }
      history := history + [SawHeld(held.value)];
    }

    method DisplaceRow(e: Stage) returns (ok: bool)
      requires e.Replaced?
      modifies this
      ensures ok <==> Displace(old(Now()), e).Some?
      ensures ok ==> Displace(old(Now()), e) == Some(Now())
    {
      hide InventorySpec;
      if !kase.Replace? || phase != 2 || roles.None? || !e.guardAlive {
        return false;
      }
      var held := Inventory(e.guardAlive, e.listing, true);
      var role := kase.role;
      if held != roles || role !in held.value || e.identity(role).None? || e.identity(role) == Some(held.value[role]) {
        return false;
      }
      replacementObserved, history := true, history + [SawReplaced(role)];
      return true;
    }

    method ShutRow(e: Stage) returns (ok: bool)
      requires e.Closed?
      modifies this
      ensures ok <==> Shut(old(Now()), e).Some?
      ensures ok ==> Shut(old(Now()), e) == Some(Now())
    {
      hide InventorySpec, Command;
      if phase != 2 || roles.None? {
        return false;
      }
      var held := Inventory(e.guardAlive, e.listing, false);
      if held.None? || held.value != map[] {
        return false;
      }
      ok := Answered(false, 0, e.presence);
      closedBeforeRemoval, history := true, history + [SawVacant(e.guardAlive), SawClosed];
    }

    method OpenRow(row: Row) returns (ok: bool)
      modifies this`ledger
      ensures ok <==> Open(old(Now()), row).Some?
      ensures ok ==> Open(old(Now()), row) == Some(Now())
    {
      hide ReadFile;
      ok := ReadPhase(row.size);
      if !ok || !row.sound || !(0 <= row.calls <= MAX_CALLS && 0 <= row.bytes <= MAX_BYTES)
         || row.calls < ledger.knownCalls || row.bytes < ledger.knownBytes {
        return false;
      }
      ledger := ledger.(knownCalls := row.calls, knownBytes := row.bytes);
    }

    method AdvanceRow(row: Row) returns (ok: bool)
      modifies this
      ensures ok <==> Advance(old(Now()), row).Some?
      ensures ok ==> Advance(old(Now()), row) == Some(Now())
    {
      hide Prepare, Hold, Displace, Shut;
      match row.stage
      case Prepared(_, _, _, _, _, _) =>
        ok := PrepareRow(row.owner, row.stage);
      case Held(_, _, _, _, _, _, _, _) =>
        ok := owner == Some(row.owner);
        if ok {
          ok := HoldRow(row.stage);
        }
      case Replaced(_, _, _) =>
        ok := owner == Some(row.owner);
        if ok {
          ok := DisplaceRow(row.stage);
        }
      case Closed(_, _, _) =>
        ok := owner == Some(row.owner);
        if ok {
          ok := ShutRow(row.stage);
        }
    }

    /** `tick`: a published row is checked, acted on and acknowledged; otherwise the descriptors are watched. */
    method Tick(v: Visit) returns (ok: bool)
      modifies this
      ensures ok <==> TickSpec(old(Now()), v).Some?
      ensures ok ==> TickSpec(old(Now()), v) == Some(Now())
      ensures ok && Inv(old(Now())) ==> Inv(Now())
    {
      hide Open, Advance, LookVacant, Inv;
      ghost var before := Now();
      if Inv(before) {
        TickKeeps(before, v);
      }
      match v
      case HasRow(row) =>
        ok := OpenRow(row);
        if !ok {
          return;
        }
        ok := AdvanceRow(row);
        if !ok {
          return;
        }
        acks := acks + [Ack(ledger.calls - ledger.ackCalls, ledger.bytes - ledger.ackBytes)];
        ledger := ledger.(ackCalls := ledger.calls, ackBytes := ledger.bytes);
        phase := phase + 1;
      case NoRow(guardAlive, listing, presence) =>
        ok := true;
        if roles.Some? && !closedBeforeRemoval && !kase.Positive? && !kase.GuardLoss? {
          ok := Look(guardAlive, listing, presence);
        }
    }

    method AwaitGuard(polls: seq<Poll>) returns (ok: bool)
      modifies this
      ensures ok <==> Wait(old(Now()), polls).Some?
      ensures ok ==> Wait(old(Now()), polls) == Some(Now())
    {
      hide LookVacant;
      var i := 0;
      while i < |polls|
        invariant 0 <= i <= |polls|
        invariant Wait(old(Now()), polls) == Wait(Now(), polls[i..])
      {
        var p := polls[i];
        assert polls[i..][0] == p && polls[i..][1..] == polls[i + 1..];
        if p.late {
          return false;
        }
        if !closedBeforeRemoval {
          ok := Look(p.guardAlive, p.listing, p.presence);
          if !ok {
            return;
          }
        }
        i := i + 1;
      }
      return true;
    }

    method Evidence(f: Finale) returns (ok: bool)
      modifies this`ledger
      ensures ok <==> ReadEvidence(old(Now()), f).Some?
      ensures ok ==> ReadEvidence(old(Now()), f) == Some(Now())
    {
      hide ReadFile, Reservable;
      if kase.Expiry? {
        if !Reservable(ledger, Unsure(), 0, 8192) || !(0 < f.decision <= MAX_DECISION) {
          return false;
        }
        ok := Spend(0, 2 * f.decision);
        if !ok {
          return;
        }
      }
      if kase.Replace? || kase.LostAck? {
        ok := ReadPhase(f.request);
        if !ok {
          return;
        }
      }
      if kase.LostAck? {
        ok := ReadPhase(f.control);
        return;
      }
      return true;
    }

    method ConfirmAbsent(kind: Kind, c: Child) returns (ok: bool)
      modifies this
      ensures ok <==> FindAbsent(old(Now()), kind, c).Some?
      ensures ok ==> FindAbsent(old(Now()), kind, c) == Some(Now())
    {
      hide Command;
      ok := Answered(false, 1, c);
      history := history + [SawAbsent(kind)];
    }

    method ConfirmAllAbsent(f: Finale) returns (ok: bool)
      modifies this
      ensures ok <==> FindAllAbsent(old(Now()), f).Some?
      ensures ok ==> FindAllAbsent(old(Now()), f) == Some(Now())
    {
      hide FindAbsent;
      ok := ConfirmAbsent(Container, f.container);
      if ok {
        ok := ConfirmAbsent(OuterName, f.outerName);
      }
      if ok {
        ok := ConfirmAbsent(Volume, f.volume);
      }
    }

    method TakeResult(f: Finale) returns (ok: bool)
      modifies this`ledger
      ensures ok <==> ReadResult(old(Now()), f).Some?
      ensures ok ==> ReadResult(old(Now()), f) == Some(Now())
    {
      hide ReadFile;
      ok := true;
      if kase.Positive? || kase.GuardLoss? {
        ok := ReadPhase(f.resultSize);
        ledger := ledger.(knownCalls := f.resultCalls, knownBytes := f.resultBytes);
      }
    }

    /** `finish`. */
    method Finish(f: Finale) returns (r: Option<(Usage, Usage)>)
      modifies this
      ensures r.Some? <==> FinishSpec(old(Now()), f).Some?
      ensures r.Some? ==> FinishSpec(old(Now()), f) == Some(Report(Now(), r.value.0, r.value.1))
      ensures r.Some? && Inv(old(Now())) ==> Witnessed(kase, history)
    {
      hide Wait, ReadEvidence, FindAllAbsent, ReadResult, Inv, Witnessed;
      ghost var before := Now();
      if Inv(before) && FinishSpec(before, f).Some? {
        FinishWitnessed(before, f);
      }
      if owner.None? || cid.None? || roles.None? {
        return None;
      }
      var ok := AwaitGuard(f.polls);
      if !ok || f.ownerAlive || !closedBeforeRemoval || (kase.Replace? && !replacementObserved) || !f.sound {
        return None;
      }
      history := history + [SawBothDead];
      ok := Evidence(f);
      if !ok {
        return None;
      }
      ok := ConfirmAllAbsent(f);
      if !ok || !f.privateGone {
        return None;
      }
      ok := TakeResult(f);
      if !ok {
        return None;
      }
      var used, u := Total(ledger), Unsure();
      return Some((used, Usage(used.calls + u.calls, used.bytes + u.bytes)));
    }
  }
}
