/** Exactly which rows and visits the custody observer accepts, read off what the environment shows. */
module CustodyLaws {
  import opened Wrappers
  import opened Custody

  predicate Sized(n: nat) {
    0 < n <= 131072
  }

  /** The listing shows each of the six roles once, at a place of its own that its identity confirms. */
  ghost predicate ShowsSix(listing: seq<Descriptor>, identity: Role -> Option<Object>) {
    && |listing| <= 128 && ListingOk(listing, true, {})
    && (forall role: Role :: ShownAt(listing, role))
    && (forall i, j | 0 <= i < j < |listing| && Shown(listing[i]) && Shown(listing[j]) :: listing[i].target != listing[j].target)
    && (forall i | 0 <= i < |listing| && Shown(listing[i]) :: identity(listing[i].role.value) == listing[i].target)
  }

  ghost predicate ShownAt(listing: seq<Descriptor>, role: Role) {
    exists i :: 0 <= i < |listing| && Shown(listing[i]) && listing[i].role == Some(role)
  }

  /** The role this descriptor has is held at the place it shows. */
  ghost predicate ShowsAt(d: Descriptor, roles: map<Role, Object>)
    requires Shown(d)
  {
    d.role.value in roles && roles[d.role.value] == d.target.value
  }

  /** The listing shows exactly the directories that were held. */
  ghost predicate ShowsStill(listing: seq<Descriptor>, roles: map<Role, Object>) {
    && |listing| <= 128 && ListingOk(listing, true, {})
    && (forall i | 0 <= i < |listing| && Shown(listing[i]) :: ShowsAt(listing[i], roles))
    && (forall role | role in roles :: ShownAt(listing, role))
  }

  /** Everything a row must show, and the state it must meet, apart from the allowance. */
  ghost predicate RowShown(s: State, row: Row) {
    && row.sound && Sized(row.size)
    && 0 <= row.calls <= 256 && 0 <= row.bytes <= 16 * 1048576
    && s.ledger.knownCalls <= row.calls && s.ledger.knownBytes <= row.bytes
    && match row.stage
       case Prepared(sound, nullCid, marker, original, preflight, refreshed) =>
         && s.owner.None? && s.phase == 0 && sound && nullCid
         && Sized(marker) && Sized(original) && Sized(refreshed) && Reports(preflight, 0)
       case Held(sound, guardAlive, cid, presence, listing, identity, lease, manifest) =>
         && s.owner == Some(row.owner) && s.phase == 1 && sound && guardAlive && Replies(presence, 0)
         && ShowsSix(listing, identity) && Sized(lease) && (s.kase.Expiry? ==> Sized(manifest))
       case Replaced(guardAlive, listing, identity) =>
         && s.owner == Some(row.owner) && s.phase == 2 && s.roles.Some? && s.kase.Replace? && guardAlive
         && ShowsStill(listing, s.roles.value) && s.kase.role in s.roles.value
         && identity(s.kase.role).Some? && identity(s.kase.role) != Some(s.roles.value[s.kase.role])
       case Closed(guardAlive, listing, presence) =>
         && s.owner == Some(row.owner) && s.phase == 2 && s.roles.Some?
         && (guardAlive ==> |listing| <= 128 && ListingOk(listing, false, {})) && NothingHeld(guardAlive, listing)
         && Replies(presence, 0)
  }

  /** Room for whatever one row can cost, before and after the row is known. */
  predicate Ample(s: State, row: Row) {
    && Reservable(s.ledger, Usages(s), 1, 3 * LIMIT)
    && Reservable(s.ledger.(knownCalls := row.calls, knownBytes := row.bytes), Usages(s), 1, 3 * LIMIT)
  }

  lemma OpenMeans(s: State, row: Row)
    ensures var r := Open(s, row);
      && (r.Some? ==> row.sound && Sized(row.size) && 0 <= row.calls <= 256 && 0 <= row.bytes <= 16 * 1048576
                      && s.ledger.knownCalls <= row.calls && s.ledger.knownBytes <= row.bytes)
      && ((&& row.sound && Sized(row.size) && 0 <= row.calls <= 256 && 0 <= row.bytes <= 16 * 1048576
           && s.ledger.knownCalls <= row.calls && s.ledger.knownBytes <= row.bytes && Ample(s, row)) ==> r.Some?)
      && (r.Some? ==> r.value == s.(ledger := Charged(s.ledger, 0, row.size).(knownCalls := row.calls, knownBytes := row.bytes)))
  {}

  lemma ReadMeans(s: State, size: nat)
    ensures var r := ReadFile(s, size);
      && (r.Some? ==> Sized(size) && r.value == s.(ledger := Charged(s.ledger, 0, size)))
      && (Sized(size) && Reservable(s.ledger, Usages(s), 0, size) ==> r.Some?)
  {}

  lemma PrepareMeans(s: State, owner: Id, e: Stage)
    requires e.Prepared?
    ensures var shown := s.owner.None? && s.phase == 0 && e.sound && e.nullCid
                         && Sized(e.marker) && Sized(e.original) && Sized(e.refreshed) && Reports(e.preflight, 0);
      && (Prepare(s, owner, e).Some? ==> shown)
      && (shown && Reservable(s.ledger, Usages(s), 1, 2 * LIMIT) ==> Prepare(s, owner, e).Some?)
  {
    hide ReadFile, Command, Reports;
    ReadMeans(s, e.marker);
    var t1 := ReadFile(s, e.marker);
    if t1.Some? {
      var owned := t1.value.(owner := Some(owner));
      ReadMeans(owned, e.original);
      var t2 := ReadFile(owned, e.original);
      if t2.Some? {
        CommandIs(t2.value, true, 0, e.preflight);
        var t3 := Command(t2.value, true, 0, e.preflight);
        if t3.Some? {
          ReadMeans(t3.value, e.refreshed);
        }
      }
    }
  }

  lemma ShownHasRole(d: Descriptor)
    requires Shown(d)
    ensures d.role.Some?
  {}

  /** What a strict listing finds, and when it is refused. */
  lemma StrictListing(l: Ledger, u: Usage, listing: seq<Descriptor>)
    ensures var r := InventorySpec(l, u, true, listing, true);
      && (r.Some? ==> |listing| <= 128 && ListingOk(listing, true, {}))
      && (|listing| <= 128 && ListingOk(listing, true, {}) && Reservable(l, u, 0, 128 * 4096) ==> r.Some?)
      && (r.Some? ==>
            && r.value.ledger == l.(bytes := r.value.ledger.bytes) && l.bytes <= r.value.ledger.bytes <= l.bytes + 128 * 4096
            && (forall role :: role in r.value.roles <==> ShownAt(listing, role))
            && (forall i | 0 <= i < |listing| && Shown(listing[i]) :: ShowsAt(listing[i], r.value.roles)))
  {
    hide ScanDescriptors, ListingOk, Affordable, Shown;
    var none: map<Role, Object> := map[];
    assert none.Keys == {};
    if Reservable(l, u, 0, MAX_DESCRIPTORS * MAX_LINK) {
      ScanIff(l, u, 0, listing, true, none);
      var r := InventorySpec(l, u, true, listing, true);
      if r.Some? {
        forall i | 0 <= i < |listing| && Shown(listing[i]) ensures ShowsAt(listing[i], r.value.roles) {
          ShownHasRole(listing[i]);
          assert listing[i].role == Some(listing[i].role.value);
          assert listing[i].role.value in r.value.roles;
        }
      }
    }
  }

  lemma SixMeans(listing: seq<Descriptor>, identity: Role -> Option<Object>, roles: map<Role, Object>)
    requires |listing| <= 128 && ListingOk(listing, true, {})
    requires forall role :: role in roles <==> ShownAt(listing, role)
    requires forall i | 0 <= i < |listing| && Shown(listing[i]) :: ShowsAt(listing[i], roles)
    ensures ShowsSix(listing, identity) <==> SixDistinct(roles) && forall role | role in roles :: identity(role) == Some(roles[role])
  {
    if ShowsSix(listing, identity) {
      forall a, b | a in roles && b in roles && a != b ensures roles[a] != roles[b] {
        var i :| 0 <= i < |listing| && Shown(listing[i]) && listing[i].role == Some(a);
        var j :| 0 <= j < |listing| && Shown(listing[j]) && listing[j].role == Some(b);
        assert i < j || j < i;
      }
      forall role | role in roles ensures identity(role) == Some(roles[role]) {
        var i :| 0 <= i < |listing| && Shown(listing[i]) && listing[i].role == Some(role);
      }
    }
    if SixDistinct(roles) && forall role | role in roles :: identity(role) == Some(roles[role]) {
      forall role: Role ensures ShownAt(listing, role) {
        match role
        case Data | Media | Consume | Export | Pgdata | Redisdata => assert role in ROLES;
      }
      forall i, j | 0 <= i < j < |listing| && Shown(listing[i]) && Shown(listing[j]) ensures listing[i].target != listing[j].target {
        assert roles[listing[i].role.value] != roles[listing[j].role.value];
      }
    }
  }

  lemma HoldMeans(s: State, e: Stage)
    requires e.Held?
    ensures var shown := s.phase == 1 && e.sound && e.guardAlive && Replies(e.presence, 0)
                         && ShowsSix(e.listing, e.identity) && Sized(e.lease) && (s.kase.Expiry? ==> Sized(e.manifest));
      && (Hold(s, e).Some? ==> shown)
      && (shown && Reservable(s.ledger, Usages(s), 1, 2 * LIMIT) ==> Hold(s, e).Some?)
  {
    hide ReadFile, Command, Replies, InventorySpec, SixDistinct, ShowsSix, ListingOk, Shown, ShownAt;
    var named := s.(cid := Some(e.cid));
    CommandIs(named, false, 0, e.presence);
    var t1 := Command(named, false, 0, e.presence);
    if t1.Some? && e.guardAlive {
      StrictListing(t1.value.ledger, Usages(s), e.listing);
      var listed := InventorySpec(t1.value.ledger, Usages(s), true, e.listing, true);
      if listed.Some? {
        SixMeans(e.listing, e.identity, listed.value.roles);
        var held := t1.value.(ledger := listed.value.ledger, roles := Some(listed.value.roles));
        ReadMeans(held, e.lease);
        var t2 := ReadFile(held, e.lease);
        if t2.Some? {
          ReadMeans(t2.value, e.manifest);
        }
      } else {
        NotSix(e.listing, e.identity);
      }
    }
  }

  lemma NotSix(listing: seq<Descriptor>, identity: Role -> Option<Object>)
    ensures ShowsSix(listing, identity) ==> |listing| <= 128 && ListingOk(listing, true, {})
  {}

  lemma DisplaceMeans(s: State, e: Stage)
    requires e.Replaced?
    ensures var shown := s.phase == 2 && s.roles.Some? && s.kase.Replace? && e.guardAlive
                         && ShowsStill(e.listing, s.roles.value) && s.kase.role in s.roles.value
                         && e.identity(s.kase.role).Some? && e.identity(s.kase.role) != Some(s.roles.value[s.kase.role]);
      && (Displace(s, e).Some? ==> shown)
      && (shown && Reservable(s.ledger, Usages(s), 1, 2 * LIMIT) ==> Displace(s, e).Some?)
  {
    hide InventorySpec, ListingOk, ShownAt, Shown;
    StrictListing(s.ledger, Usages(s), e.listing);
    var listed := InventorySpec(s.ledger, Usages(s), true, e.listing, true);
    if listed.Some? && s.roles.Some? {
      StillMeans(e.listing, s.roles.value, listed.value.roles);
    }
  }

  lemma StillMeans(listing: seq<Descriptor>, held: map<Role, Object>, roles: map<Role, Object>)
    requires |listing| <= 128 && ListingOk(listing, true, {})
    requires forall role :: role in roles <==> ShownAt(listing, role)
    requires forall i | 0 <= i < |listing| && Shown(listing[i]) :: ShowsAt(listing[i], roles)
    ensures ShowsStill(listing, held) <==> roles == held
  {
    hide ListingOk;
    if ShowsStill(listing, held) {
      forall role | role in roles ensures role in held && held[role] == roles[role] {
        var i :| 0 <= i < |listing| && Shown(listing[i]) && listing[i].role == Some(role);
      }
      assert roles.Keys == held.Keys;
    }
    if roles == held {
      forall i | 0 <= i < |listing| && Shown(listing[i]) ensures listing[i].role.value in held {
        assert ShownAt(listing, listing[i].role.value);
      }
    }
  }

  lemma LooseListing(l: Ledger, u: Usage, guardAlive: bool, listing: seq<Descriptor>)
    ensures var r := InventorySpec(l, u, guardAlive, listing, false);
      && (r.Some? && guardAlive ==> |listing| <= 128 && ListingOk(listing, false, {}))
      && ((guardAlive ==> |listing| <= 128 && ListingOk(listing, false, {})) && Reservable(l, u, 0, 128 * 4096) ==> r.Some?)
      && (r.Some? ==> r.value.ledger == l.(bytes := r.value.ledger.bytes) && l.bytes <= r.value.ledger.bytes <= l.bytes + 128 * 4096)
  {
    hide ScanDescriptors, ListingOk, Affordable, Shown;
    var none: map<Role, Object> := map[];
    assert none.Keys == {};
    if guardAlive && Reservable(l, u, 0, MAX_DESCRIPTORS * MAX_LINK) {
      ScanIff(l, u, 0, listing, false, none);
    }
  }

  lemma ShutMeans(s: State, e: Stage)
    requires e.Closed?
    ensures var shown := s.phase == 2 && s.roles.Some?
                         && (e.guardAlive ==> |e.listing| <= 128 && ListingOk(e.listing, false, {}))
                         && NothingHeld(e.guardAlive, e.listing) && Replies(e.presence, 0);
      && (Shut(s, e).Some? ==> shown)
      && (shown && Reservable(s.ledger, Usages(s), 1, 2 * LIMIT) ==> Shut(s, e).Some?)
  {
    hide InventorySpec, ListingOk, NothingHeld, Command, Replies;
    LooseListing(s.ledger, Usages(s), e.guardAlive, e.listing);
    InventoryEmptyIff(s, e.guardAlive, e.listing, false);
    var listed := InventorySpec(s.ledger, Usages(s), e.guardAlive, e.listing, false);
    if listed.Some? {
      CommandIs(s.(ledger := listed.value.ledger), false, 0, e.presence);
    }
  }

  /**
    Exactly which rows are accepted: one that is taken has shown all of this, and one that shows all of
    this is taken when the allowance has room for it.
  */
  lemma RowMeans(s: State, row: Row)
    ensures TickSpec(s, HasRow(row)).Some? ==> RowShown(s, row)
    ensures RowShown(s, row) && Ample(s, row) ==> TickSpec(s, HasRow(row)).Some?
  {
    hide Open, Prepare, Hold, Displace, Shut, ShowsSix, ShowsStill, ListingOk, NothingHeld, Replies, Reports;
    OpenMeans(s, row);
    var t := Open(s, row);
    if t.Some? {
      match row.stage
      case Prepared(_, _, _, _, _, _) => PrepareMeans(t.value, row.owner, row.stage);
      case Held(_, _, _, _, _, _, _, _) => HoldMeans(t.value, row.stage);
      case Replaced(_, _, _) => DisplaceMeans(t.value, row.stage);
      case Closed(_, _, _) => ShutMeans(t.value, row.stage);
    }
  }

  /** Exactly when a visit without a row is survived; a case that is not watched, or closed, looks at nothing. */
  lemma VisitMeans(s: State, guardAlive: bool, listing: seq<Descriptor>, presence: Child)
    requires Funded(s)
    ensures var looks := s.roles.Some? && !s.closed && Watched(s.kase); var r := TickSpec(s, NoRow(guardAlive, listing, presence));
      var shown := (guardAlive ==> |listing| <= 128 && ListingOk(listing, false, {}))
                   && (NothingHeld(guardAlive, listing) ==> Replies(presence, 0) || Replies(presence, 1));
      && (!looks ==> r == Some(s))
      && (looks && r.Some? ==> shown)
      && (looks && shown && Reservable(s.ledger, Usages(s), 1, LIMIT) ==> r.Some?)
  {
    hide InventorySpec, ListingOk, NothingHeld, CommandSpec, Replies;
    LooseListing(s.ledger, Usages(s), guardAlive, listing);
    InventoryEmptyIff(s, guardAlive, listing, false);
    var listed := InventorySpec(s.ledger, Usages(s), guardAlive, listing, false);
    if listed.Some? {
      CommandMeans(listed.value.ledger, Usages(s), false, presence, 0);
      CommandMeans(listed.value.ledger, Usages(s), false, presence, 1);
    }
  }

  /** What an accepted row leaves: the owner, the container and the six directories that it showed, and the counts it made known. */
  lemma RowLeaves(s: State, row: Row)
    requires TickSpec(s, HasRow(row)).Some?
    ensures var t := TickSpec(s, HasRow(row)).value;
      && t.phase == s.phase + 1 && t.ledger.knownCalls == row.calls && t.ledger.knownBytes == row.bytes
      && (row.stage.Prepared? ==> t.owner == Some(row.owner))
      && (row.stage.Held? ==>
            && t.cid == Some(row.stage.cid) && t.roles.Some? && ShowsStill(row.stage.listing, t.roles.value))
      && (row.stage.Replaced? ==> t.replaced && t.roles == s.roles && t.closed == s.closed)
      && (row.stage.Closed? ==> t.closed && t.roles == s.roles && t.replaced == s.replaced)
  {
    hide Open, Prepare, Hold, Displace, Shut;
    OpenMeans(s, row);
    var t := Open(s, row).value;
    match row.stage
    case Prepared(_, _, _, _, _, _) => PrepareLeaves(t, row.owner, row.stage);
    case Held(_, _, _, _, _, _, _, _) => HoldLeaves(t, row.stage);
    case Replaced(_, _, _) => DisplaceLeaves(t, row.stage);
    case Closed(_, _, _) => ShutLeaves(t, row.stage);
  }

  ghost predicate SameBooks(s: State, t: State) {
    t.phase == s.phase && t.ledger.knownCalls == s.ledger.knownCalls && t.ledger.knownBytes == s.ledger.knownBytes
  }

  lemma PrepareLeaves(s: State, owner: Id, e: Stage)
    requires e.Prepared? && Prepare(s, owner, e).Some?
    ensures SameBooks(s, Prepare(s, owner, e).value) && Prepare(s, owner, e).value.owner == Some(owner)
  {
    hide ReadFile, Command;
    ReadMeans(s, e.marker);
    var owned := ReadFile(s, e.marker).value.(owner := Some(owner));
    ReadMeans(owned, e.original);
    var t2 := ReadFile(owned, e.original).value;
    CommandIs(t2, true, 0, e.preflight);
    ReadMeans(Command(t2, true, 0, e.preflight).value, e.refreshed);
  }

  lemma HoldLeaves(s: State, e: Stage)
    requires e.Held? && Hold(s, e).Some?
    ensures var t := Hold(s, e).value;
      SameBooks(s, t) && t.cid == Some(e.cid) && t.roles.Some? && ShowsStill(e.listing, t.roles.value)
  {
    hide ReadFile, Command, InventorySpec, SixDistinct, ShowsStill;
    var named := s.(cid := Some(e.cid));
    CommandIs(named, false, 0, e.presence);
    var t1 := Command(named, false, 0, e.presence).value;
    StrictListing(t1.ledger, Usages(s), e.listing);
    var listed := InventorySpec(t1.ledger, Usages(s), true, e.listing, true).value;
    StillMeans(e.listing, listed.roles, listed.roles);
    var held := t1.(ledger := listed.ledger, roles := Some(listed.roles));
    ReadMeans(held, e.lease);
    ReadMeans(ReadFile(held, e.lease).value, e.manifest);
  }

  lemma DisplaceLeaves(s: State, e: Stage)
    requires e.Replaced? && Displace(s, e).Some?
    ensures var t := Displace(s, e).value; SameBooks(s, t) && t.replaced && t.roles == s.roles && t.closed == s.closed
  {
    hide InventorySpec;
    StrictListing(s.ledger, Usages(s), e.listing);
  }

  lemma ShutLeaves(s: State, e: Stage)
    requires e.Closed? && Shut(s, e).Some?
    ensures var t := Shut(s, e).value; SameBooks(s, t) && t.closed && t.roles == s.roles && t.replaced == s.replaced
  {
    hide InventorySpec, Command;
    LooseListing(s.ledger, Usages(s), e.guardAlive, e.listing);
    var listed := InventorySpec(s.ledger, Usages(s), e.guardAlive, e.listing, false).value;
    CommandIs(s.(ledger := listed.ledger), false, 0, e.presence);
  }

  // ------------------------------------------------ the wait for the guard

  /** A look that is not refused for what it finds. */
  ghost predicate LookShown(guardAlive: bool, listing: seq<Descriptor>, presence: Child) {
    && (guardAlive ==> |listing| <= 128 && ListingOk(listing, false, {}))
    && (NothingHeld(guardAlive, listing) ==> Replies(presence, 0) || Replies(presence, 1))
  }

  /** Nothing is held any more, and the container is still there. */
  ghost predicate Vacant(guardAlive: bool, listing: seq<Descriptor>, presence: Child) {
    NothingHeld(guardAlive, listing) && Replies(presence, 0)
  }

  /** At most one call and 1 MiB more. */
  ghost predicate CostsLittle(s: State, t: State) {
    && t == s.(ledger := t.ledger, closed := t.closed, history := t.history)
    && t.ledger == s.ledger.(calls := t.ledger.calls, bytes := t.ledger.bytes)
    && s.ledger.calls <= t.ledger.calls <= s.ledger.calls + 1 && s.ledger.bytes <= t.ledger.bytes <= s.ledger.bytes + LIMIT
  }

  lemma LookMeans(s: State, guardAlive: bool, listing: seq<Descriptor>, presence: Child)
    requires Funded(s)
    ensures var r := LookVacant(s, guardAlive, listing, presence);
      && (r.Some? ==> LookShown(guardAlive, listing, presence) && CostsLittle(s, r.value)
                      && (r.value.closed <==> s.closed || Vacant(guardAlive, listing, presence)))
      && (LookShown(guardAlive, listing, presence) && Reservable(s.ledger, Usages(s), 1, LIMIT) ==> r.Some?)
  {
    hide InventorySpec, ListingOk, NothingHeld, CommandSpec, Replies;
    LooseListing(s.ledger, Usages(s), guardAlive, listing);
    InventoryEmptyIff(s, guardAlive, listing, false);
    var listed := InventorySpec(s.ledger, Usages(s), guardAlive, listing, false);
    if listed.Some? {
      CommandMeans(listed.value.ledger, Usages(s), false, presence, 0);
      CommandMeans(listed.value.ledger, Usages(s), false, presence, 1);
    }
  }

  ghost predicate PollVacant(p: Poll) {
    Vacant(p.guardAlive, p.listing, p.presence)
  }

  ghost predicate PollShown(p: Poll) {
    !p.late && LookShown(p.guardAlive, p.listing, p.presence)
  }

  /**
    The wait for the guard's end: it is survived only while no poll is late, it ends with the descriptors
    seen gone exactly when they were before or some poll sees them gone with the container there, and
    polls that all show what they should are survived while the allowance lasts.
  */
  lemma {:induction false} WaitMeans(s: State, polls: seq<Poll>)
    requires Funded(s)
    ensures var r := Wait(s, polls);
      && (r.Some? ==> (forall i | 0 <= i < |polls| :: !polls[i].late) && (r.value.closed <==> s.closed || exists i :: 0 <= i < |polls| && PollVacant(polls[i])))
      && ((forall i | 0 <= i < |polls| :: PollShown(polls[i])) && Reservable(s.ledger, Usages(s), |polls|, |polls| * LIMIT) ==> r.Some?)
    decreases |polls|
  {
    hide LookVacant, Vacant, LookShown, Reservable;
    if polls != [] {
      var p, rest := polls[0], polls[1..];
      assert forall i | 0 < i < |polls| :: polls[i] == rest[i - 1];
      if s.closed {
        WaitMeans(s, rest);
        LessReserved(s.ledger, s.ledger, Usages(s), |rest|);
      } else {
        LookMeans(s, p.guardAlive, p.listing, p.presence);
        LookDecides(s, p.guardAlive, p.listing, p.presence);
        FirstReserved(s.ledger, Usages(s), |polls|);
        var t := LookVacant(s, p.guardAlive, p.listing, p.presence);
        if t.Some? {
          WaitMeans(t.value, rest);
          LessReserved(s.ledger, t.value.ledger, Usages(s), |rest|);
        }
      }
    }
  }

  lemma FirstReserved(l: Ledger, u: Usage, n: nat)
    requires n > 0
    ensures Reservable(l, u, n, n * LIMIT) ==> Reservable(l, u, 1, LIMIT)
  {}

  lemma LessReserved(l: Ledger, m: Ledger, u: Usage, n: nat)
    requires m == l.(calls := m.calls, bytes := m.bytes) && m.calls <= l.calls + 1 && m.bytes <= l.bytes + LIMIT
    ensures Reservable(l, u, n + 1, (n + 1) * LIMIT) ==> Reservable(m, u, n, n * LIMIT)
  {}

  // ------------------------------------------------ the allowance

  /** What a case may have spent unseen: a replacement not yet observed, and a check cut short. */
  ghost predicate Unseen(kase: Case, replaced: bool, calls: int, bytes: int) {
    if kase.Replace? && !replaced then calls == 5 && bytes == 8675370
    else if kase.Replace? || kase.LostAck? then calls == 3 && bytes == 6578218
    else calls == 0 && bytes == 0
  }

  /** `reserve` on its numbers: the holder's known work, the observer's own that it does not yet include, the unseen and the request fit 256 calls and 16 MiB. */
  lemma AllowanceMeans(l: Ledger, kase: Case, replaced: bool, calls: nat, size: nat, unseen: Usage)
    requires Unseen(kase, replaced, unseen.calls, unseen.bytes)
    ensures Reservable(l, Uncertainty(kase, replaced), calls, size) <==>
      && l.knownCalls + (l.calls - l.ackCalls) + unseen.calls + calls <= 256
      && l.knownBytes + (l.bytes - l.ackBytes) + unseen.bytes + size <= 16777216
  {}
}
