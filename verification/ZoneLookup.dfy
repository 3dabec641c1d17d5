/** `find`: delegation, exact data, wildcard synthesis and negative answers, and
    how they relate to the zone cuts of section 4.3.2 of RFC 1034. */
module ZoneLookup {
  import opened Dns
  import Runs
  import opened ZoneModel
  import opened ZoneInvariants

  datatype FindOption = DefaultFind | GlueOkFind

  /** An RRset pointer of None is nil; the last two are the panics of `find`. */
  datatype FindResult =
    | Success(rr: Option<RRset>)
    | Delegation(rr: Option<RRset>)
    | CNameFound(rr: Option<RRset>)
    | NXRRset
    | NXDomain
    | ServFail
    | CutPanic
    | WildcardPanic

  // ----- the search with its zone-cut callback

  /** `findState` plus how the walk ended. */
  datatype FindState = FindState(zonecut: Option<Name>, stopped: bool, panicked: bool)

  predicate IsCut(z: Zone, n: Name) {
    n in z.nodes && z.nodes[n].cut
  }

  function ZoneCutCallback(z: Zone, n: Name, st: FindState, option: FindOption): FindState {
    if !Holds(z, n, NS) then st.(panicked := true)
    else if st.zonecut.Some? then st
    else st.(zonecut := Some(n), stopped := option != GlueOkFind)
  }

  /** The state after the walk has passed the nodes above name[..k], topmost first. */
  function Walk(z: Zone, name: Name, option: FindOption, k: nat): (st: FindState)
    requires k <= |name|
    ensures st.stopped ==> st.zonecut.Some?
  {
    if k == 0 then FindState(None, false, false)
    else
      var st := Walk(z, name, option, k - 1);
      if st.stopped || st.panicked || !IsCut(z, name[..k - 1]) then st
      else ZoneCutCallback(z, name[..k - 1], st, option)
  }

  /** The deepest node properly above name[..k], where a partial match ends. */
  function ClosestNode(z: Zone, name: Name, k: nat): (n: Option<Name>)
    requires k <= |name|
    ensures n.Some? ==> n.value in z.nodes && n.value < name
  {
    if k == 0 then None
    else if name[..k - 1] in z.nodes then Some(name[..k - 1])
    else ClosestNode(z, name, k - 1)
  }

  predicate IsNonTerminal(z: Zone, name: Name) {
    exists m | m in z.nodes :: name < m
  }

  function Classify(d: NodeData, typ: RRType): FindResult {
    if typ in d then Success(d[typ])
    else if CNAME in d then CNameFound(d[CNAME])
    else NXRRset
  }

  /** The owner is replaced in a copy of the wildcard's RRset; dereferencing a nil
      pointer here is the wildcard panic too. */
  function Synthesize(found: FindResult, name: Name): FindResult {
    match found
    case Success(Some(r)) => Success(Some(r.(name := name)))
    case CNameFound(Some(r)) => CNameFound(Some(r.(name := name)))
    case NXRRset => NXRRset
    case _ => WildcardPanic
  }

  function FindWildcard(z: Zone, closest: Name, name: Name, typ: RRType): FindResult {
    if HasData(z.nodes, closest + [WILDCARD])
    then Synthesize(Classify(z.nodes[closest + [WILDCARD]].data.value, typ), name)
    else WildcardPanic
  }

  function FindPartial(z: Zone, name: Name, typ: RRType, st: FindState): FindResult {
    match ClosestNode(z, name, |name|)
    case None => NXDomain
    case Some(closest) =>
      if st.zonecut.Some? then Delegation(RRsetAt(z, st.zonecut.value, NS))
      else if IsNonTerminal(z, name) then NXRRset
      else if z.nodes[closest].wild then FindWildcard(z, closest, name, typ)
      else NXDomain
  }

  function FindExact(z: Zone, name: Name, typ: RRType): FindResult
    requires name in z.nodes
  {
    match z.nodes[name].data
    case None => if IsNonTerminal(z, name) then NXRRset else NXDomain
    case Some(d) =>
      if z.nodes[name].cut && name != z.origin && NS in d then Delegation(d[NS])
      else Classify(d, typ)
  }

  function Find(z: Zone, name: Name, typ: RRType, option: FindOption): FindResult {
    var st := Walk(z, name, option, |name|);
    if st.panicked then CutPanic
    else if st.stopped then Delegation(RRsetAt(z, st.zonecut.value, NS))
    else if name in z.nodes then FindExact(z, name, typ)
    else FindPartial(z, name, typ, st)
  }

  // ----- the walk, independently

  ghost predicate TopmostCut(z: Zone, name: Name, k: nat, i: nat) {
    i < k <= |name| && IsCut(z, name[..i]) && forall j | 0 <= j < i :: !IsCut(z, name[..j])
  }

  ghost predicate NoCutAbove(z: Zone, name: Name, k: nat) {
    k <= |name| && forall j | 0 <= j < k :: !IsCut(z, name[..j])
  }

  lemma {:induction false} WalkDefault(z: Zone, name: Name, k: nat)
    requires k <= |name|
    ensures NoCutAbove(z, name, k) ==> Walk(z, name, DefaultFind, k) == FindState(None, false, false)
    ensures forall i: nat | TopmostCut(z, name, k, i) ::
              Walk(z, name, DefaultFind, k) ==
              if Holds(z, name[..i], NS) then FindState(Some(name[..i]), true, false)
              else FindState(None, false, true)
  {
    if k > 0 {
      WalkDefault(z, name, k - 1);
      forall i: nat | TopmostCut(z, name, k, i)
        ensures Walk(z, name, DefaultFind, k) ==
                if Holds(z, name[..i], NS) then FindState(Some(name[..i]), true, false)
                else FindState(None, false, true)
      {
        if i < k - 1 {
          assert TopmostCut(z, name, k - 1, i);
        } else {
          assert NoCutAbove(z, name, k - 1);
        }
      }
    }
  }

  lemma CutOrNone(z: Zone, name: Name, k: nat) returns (i: nat)
    requires k <= |name|
    ensures TopmostCut(z, name, k, i) || NoCutAbove(z, name, k)
    ensures forall j: nat | TopmostCut(z, name, k, j) :: j == i
  {
    i := 0;
    if j :| 0 <= j < k && IsCut(z, name[..j]) {
      i := LeastCut(z, name, k, j);
    }
  }

  lemma {:induction false} LeastCut(z: Zone, name: Name, k: nat, i: nat) returns (l: nat)
    requires i < k <= |name| && IsCut(z, name[..i])
    ensures TopmostCut(z, name, k, l)
    decreases i
  {
    if j :| 0 <= j < i && IsCut(z, name[..j]) {
      l := LeastCut(z, name, k, j);
    } else {
      l := i;
    }
  }

  lemma {:induction false} WalkGlueOk(z: Zone, name: Name, k: nat)
    requires k <= |name|
    ensures var st := Walk(z, name, GlueOkFind, k);
            && !st.stopped
            && (st.panicked <==> exists i :: 0 <= i < k && IsCut(z, name[..i]) && !Holds(z, name[..i], NS))
            && (!st.panicked && st.zonecut.Some? ==>
                 exists i: nat :: TopmostCut(z, name, k, i) && st.zonecut == Some(name[..i]))
            && (!st.panicked && st.zonecut.None? ==> NoCutAbove(z, name, k))
  {
    if k > 0 {
      WalkGlueOk(z, name, k - 1);
      var st := Walk(z, name, GlueOkFind, k - 1);
      if !st.panicked && st.zonecut.Some? {
        var i: nat :| TopmostCut(z, name, k - 1, i) && st.zonecut == Some(name[..i]);
        assert TopmostCut(z, name, k, i);
      }
      if !st.panicked && st.zonecut.None? && IsCut(z, name[..k - 1]) {
        assert TopmostCut(z, name, k, k - 1);
      }
    }
  }

  // ----- panics

  /** Where the walk meets a flagged node without NS. */
  ghost predicate StaleCut(z: Zone, name: Name, option: FindOption, i: nat) {
    && i < |name| && IsCut(z, name[..i]) && !Holds(z, name[..i], NS)
    && (option == DefaultFind ==> NoCutAbove(z, name, i))
  }

  /** The zone-cut panic is met exactly when a flagged node that the walk reaches
      above the name no longer holds NS: the topmost flagged one for a default
      find, any of them for a glue-ok find. */
  lemma CutPanicExactly(z: Zone, name: Name, typ: RRType, option: FindOption)
    ensures Find(z, name, typ, option) == CutPanic <==> exists i: nat :: StaleCut(z, name, option, i)
  {
    FindPanicsWithWalk(z, name, typ, option);
    match option
    case GlueOkFind =>
      WalkGlueOk(z, name, |name|);
      if i :| 0 <= i < |name| && IsCut(z, name[..i]) && !Holds(z, name[..i], NS) {
        assert StaleCut(z, name, option, i);
      }
    case DefaultFind =>
      WalkDefault(z, name, |name|);
      var i := CutOrNone(z, name, |name|);
      if TopmostCut(z, name, |name|, i) && !Holds(z, name[..i], NS) {
        assert StaleCut(z, name, option, i);
      }
      forall j: nat | StaleCut(z, name, option, j) ensures TopmostCut(z, name, |name|, j) {
      }
  }

  lemma FindPanicsWithWalk(z: Zone, name: Name, typ: RRType, option: FindOption)
    ensures Find(z, name, typ, option) == CutPanic <==> Walk(z, name, option, |name|).panicked
  {
  }

  /** The "wildcard isn't correct marked" panic is unreachable: a wildcard found
      through a mark is there, has data, and stores no nil pointer. */
  lemma NoWildcardPanic(z: Zone, name: Name, typ: RRType, option: FindOption)
    requires ZoneInv(z) && InReach(z, name)
    ensures Find(z, name, typ, option) != WildcardPanic
  {
    var closest := ClosestNode(z, name, |name|);
    if name !in z.nodes && closest.Some? && z.nodes[closest.value].wild {
      NotTheApex(z, name, closest.value);
      WildcardHasData(z, closest.value, name, typ);
    }
  }

  lemma NotTheApex(z: Zone, name: Name, closest: Name)
    requires z.origin in z.nodes && name !in z.nodes
    requires IsWildCard(z.origin) ==> IsSubDomain(name, z.origin)
    requires ClosestNode(z, name, |name|) == Some(closest)
    ensures closest + [WILDCARD] != z.origin
  {
    ClosestNodeIn(z, name, |name|);
    if IsSubDomain(name, z.origin) {
      assert name[..|z.origin|] == z.origin && name[..|name|] == name;
      assert |closest| >= |z.origin|;
    } else {
      assert IsWildCard(closest + [WILDCARD]);
    }
  }

  lemma WildcardHasData(z: Zone, closest: Name, name: Name, typ: RRType)
    requires ZoneInv(z) && closest in z.nodes && z.nodes[closest].wild
    requires closest + [WILDCARD] != z.origin
    ensures FindWildcard(z, closest, name, typ) != WildcardPanic
  {
    var w := closest + [WILDCARD];
    assert HasData(z.nodes, w);
    assert NodeInv(z.origin, w, z.nodes[w]);
  }

  lemma {:induction false} ClosestNodeIn(z: Zone, name: Name, k: nat)
    requires k <= |name|
    ensures match ClosestNode(z, name, k)
            case Some(n) => n in z.nodes && n < name && forall i | |n| < i < k :: name[..i] !in z.nodes
            case None => forall i | 0 <= i < k :: name[..i] !in z.nodes
  {
    if k > 0 && name[..k - 1] !in z.nodes {
      ClosestNodeIn(z, name, k - 1);
    }
  }

  // ----- zones built by adds alone

  /** Away from the apex, a node is flagged as a cut exactly when it holds NS. */
  ghost predicate CutsExact(z: Zone) {
    forall n | n in z.nodes && n != z.origin :: z.nodes[n].cut <==> Holds(z, n, NS)
  }

  lemma AddKeepsCutAt(z: Zone, rr: RRset, split: set<Name>, n: Name)
    requires CutsExact(z) && n != z.origin
    requires n in AddRRset(z, rr, split).0.nodes
    ensures AddRRset(z, rr, split).0.nodes[n].cut <==> Holds(AddRRset(z, rr, split).0, n, NS)
  {
    assert n in z.nodes ==> (z.nodes[n].cut <==> Holds(z, n, NS));
  }

  lemma AddKeepsCuts(z: Zone, rr: RRset, split: set<Name>)
    requires CutsExact(z)
    ensures CutsExact(AddRRset(z, rr, split).0)
  {
    var z' := AddRRset(z, rr, split).0;
    forall n | n in z'.nodes && n != z'.origin ensures z'.nodes[n].cut <==> Holds(z', n, NS) {
      AddKeepsCutAt(z, rr, split, n);
    }
  }

  lemma AddsKeepCuts(origin: Name, ops: seq<Op>)
    requires forall op | op in ops :: op.Add?
    ensures var z := ApplyAll(NewZone(origin), ops); ZoneInv(z) && CutsExact(z) && z.origin == origin
  {
    NewZoneInv(origin);
    OpsKeep(NewZone(origin), ops);
    forall z', op | CutsExact(z') && op in ops ensures CutsExact(ApplyStep(z', op)) {
      AddKeepsCuts(z', op.rr, op.split);
    }
    Runs.RunKeeps(ApplyStep, CutsExact, NewZone(origin), ops);
  }

  // ----- the reference lookup

  /** name[..i] is the topmost delegation point at or above the name: the first name
      below the apex, going down, that holds NS. */
  ghost predicate DelegatedAt(z: Zone, name: Name, i: nat) {
    && i <= |name| && z.origin < name[..i] && Holds(z, name[..i], NS)
    && forall j | 0 <= j < i && z.origin < name[..j] :: !Holds(z, name[..j], NS)
  }

  /** c is the deepest existing node properly above the name. */
  ghost predicate ClosestAbove(z: Zone, name: Name, c: Name) {
    c in z.nodes && c < name && forall m | m in z.nodes && m < name :: |m| <= |c|
  }

  ghost predicate NodeBelow(z: Zone, name: Name) {
    exists m | m in z.nodes :: name < m
  }

  /** The name whose data answers (steps 3a and 3c of section 4.3.2 of RFC 1034): the name
      itself, or, for a name that does not exist at all, the `*` of its closest node. */
  ghost predicate AnsweredFrom(z: Zone, name: Name, owner: Name) {
    && HasData(z.nodes, owner)
    && (owner == name ||
        (name !in z.nodes && !NodeBelow(z, name) && exists c :: ClosestAbove(z, name, c) && owner == c + [WILDCARD]))
  }

  /** The name exists without data of its own, because something lies below it. */
  ghost predicate EmptyNonTerminal(z: Zone, name: Name) {
    && !HasData(z.nodes, name) && NodeBelow(z, name)
    && (name in z.nodes || exists c :: ClosestAbove(z, name, c))
  }

  /** An RRset under the asked name; nil stays nil. */
  function Renamed(rr: Option<RRset>, name: Name): Option<RRset> {
    match rr
    case Some(r) => Some(r.(name := name))
    case None => None
  }

  /** What a lookup away from delegations has to give, from the contents of the zone: the
      type if the answering name holds it, else its CNAME, else "no such RRset" for a name
      that answers or exists, else "no such name". */
  ghost predicate IsAnswer(z: Zone, name: Name, typ: RRType, r: FindResult) {
    match r
    case Success(rr) =>
      exists owner :: AnsweredFrom(z, name, owner) && Holds(z, owner, typ) && rr == Renamed(RRsetAt(z, owner, typ), name)
    case CNameFound(rr) =>
      exists owner ::
        && AnsweredFrom(z, name, owner) && !Holds(z, owner, typ) && Holds(z, owner, CNAME)
        && rr == Renamed(RRsetAt(z, owner, CNAME), name)
    case NXRRset =>
      || EmptyNonTerminal(z, name)
      || exists owner :: AnsweredFrom(z, name, owner) && !Holds(z, owner, typ) && !Holds(z, owner, CNAME)
    case NXDomain => !EmptyNonTerminal(z, name) && forall owner :: !AnsweredFrom(z, name, owner)
    case _ => false
  }

  lemma OneOwner(z: Zone, name: Name, a: Name, b: Name)
    requires AnsweredFrom(z, name, a) && AnsweredFrom(z, name, b)
    ensures a == b && !EmptyNonTerminal(z, name)
  {
    if a != name && b != name {
      var c :| ClosestAbove(z, name, c) && a == c + [WILDCARD];
      var d :| ClosestAbove(z, name, d) && b == d + [WILDCARD];
      OneClosest(z, name, c, d);
    }
  }

  lemma OneClosest(z: Zone, name: Name, c: Name, d: Name)
    requires ClosestAbove(z, name, c) && ClosestAbove(z, name, d)
    ensures c == d
  {
    assert c == name[..|c|] && d == name[..|d|];
  }

  /** The contents allow one answer only. */
  lemma OneAnswer(z: Zone, name: Name, typ: RRType, r: FindResult, r': FindResult)
    requires IsAnswer(z, name, typ, r) && IsAnswer(z, name, typ, r')
    ensures r == r'
  {
    forall a, b | AnsweredFrom(z, name, a) && AnsweredFrom(z, name, b)
      ensures a == b && !EmptyNonTerminal(z, name)
    {
      OneOwner(z, name, a, b);
    }
  }

  /** The queries a zone is asked: no name outside a zone whose own apex is a wildcard. */
  predicate InReach(z: Zone, name: Name) {
    IsWildCard(z.origin) ==> IsSubDomain(name, z.origin)
  }

  lemma CutsAreDelegations(z: Zone, name: Name, i: nat)
    requires ZoneInv(z) && CutsExact(z) && i <= |name|
    ensures IsCut(z, name[..i]) <==> z.origin < name[..i] && Holds(z, name[..i], NS)
  {
    var n := name[..i];
    if n in z.nodes {
      assert NodeInv(z.origin, n, z.nodes[n]);
    }
  }

  lemma TopmostIsDelegation(z: Zone, name: Name, i: nat)
    requires ZoneInv(z) && CutsExact(z)
    ensures TopmostCut(z, name, |name|, i) <==> i < |name| && DelegatedAt(z, name, i)
  {
    forall j | 0 <= j <= |name|
      ensures IsCut(z, name[..j]) <==> z.origin < name[..j] && Holds(z, name[..j], NS)
    {
      CutsAreDelegations(z, name, j);
    }
  }

  /** A name with a node: its NS set if the node is flagged and still holds one, else the
      one answer the contents allow, also at a flagged node whose NS set is gone. */
  lemma ExactAnswer(z: Zone, name: Name, typ: RRType)
    requires ZoneInv(z) && name in z.nodes
    ensures if IsCut(z, name) && Holds(z, name, NS) then FindExact(z, name, typ) == Delegation(RRsetAt(z, name, NS))
            else IsAnswer(z, name, typ, FindExact(z, name, typ))
  {
    assert NodeInv(z.origin, name, z.nodes[name]);
    if HasData(z.nodes, name) {
      assert AnsweredFrom(z, name, name);
      NamedEntry(z, name, typ);
      NamedEntry(z, name, CNAME);
    }
  }

  lemma NamedEntry(z: Zone, name: Name, typ: RRType)
    requires ZoneInv(z)
    ensures RRsetAt(z, name, typ) == Renamed(RRsetAt(z, name, typ), name)
  {
    if Holds(z, name, typ) {
      assert NodeInv(z.origin, name, z.nodes[name]);
      assert EntryInv(z.origin, name, typ, z.nodes[name].data.value[typ]);
    }
  }

  lemma ClosestIsClosest(z: Zone, name: Name)
    ensures match ClosestNode(z, name, |name|)
            case Some(c) => ClosestAbove(z, name, c)
            case None => forall c :: !ClosestAbove(z, name, c)
  {
    ClosestNodeIn(z, name, |name|);
    forall m | m in z.nodes && m < name
      ensures ClosestNode(z, name, |name|).Some? && |m| <= |ClosestNode(z, name, |name|).value|
    {
      assert m == name[..|m|];
    }
  }

  /** A name without a node, away from cuts: the mark on its closest node says exactly
      whether the wildcard there holds data. */
  lemma PartialAnswer(z: Zone, name: Name, typ: RRType, st: FindState)
    requires ZoneInv(z) && name !in z.nodes && st.zonecut.None? && InReach(z, name)
    ensures IsAnswer(z, name, typ, FindPartial(z, name, typ, st))
  {
    ClosestIsClosest(z, name);
    var closest := ClosestNode(z, name, |name|);
    if closest.Some? && !NodeBelow(z, name) {
      NotTheApex(z, name, closest.value);
      WildcardAnswer(z, name, typ, closest.value);
    }
  }

  lemma WildcardAnswer(z: Zone, name: Name, typ: RRType, c: Name)
    requires ZoneInv(z) && name !in z.nodes && !NodeBelow(z, name) && ClosestAbove(z, name, c)
    requires c + [WILDCARD] != z.origin
    ensures IsAnswer(z, name, typ, if z.nodes[c].wild then FindWildcard(z, c, name, typ) else NXDomain)
  {
    WildcardMark(z, c);
    if z.nodes[c].wild {
      assert AnsweredFrom(z, name, c + [WILDCARD]);
      WildcardHasData(z, c, name, typ);
    } else {
      NoWildcardAnswer(z, name, c);
    }
  }

  lemma NoWildcardAnswer(z: Zone, name: Name, c: Name)
    requires name !in z.nodes && !NodeBelow(z, name) && ClosestAbove(z, name, c)
    requires !HasData(z.nodes, c + [WILDCARD])
    ensures !EmptyNonTerminal(z, name) && forall owner :: !AnsweredFrom(z, name, owner)
  {
    forall d | ClosestAbove(z, name, d) ensures d == c {
      OneClosest(z, name, c, d);
    }
  }

  lemma WildcardMark(z: Zone, c: Name)
    requires ZoneInv(z) && c in z.nodes
    ensures z.nodes[c].wild <==> HasData(z.nodes, c + [WILDCARD])
  {
    var w := c + [WILDCARD];
    if HasData(z.nodes, w) {
      assert IsWildCard(w) && Parent(w) == c;
    }
  }

  /** Main result, default find on any zone the operations can build: decided by the
      topmost flagged node above the name, a panic if that has lost its NS set; without
      one, by the name's own flag and NS set; and otherwise the one answer the contents
      allow. */
  lemma DefaultFindByPath(z: Zone, name: Name, typ: RRType)
    requires ZoneInv(z)
    ensures forall i: nat | TopmostCut(z, name, |name|, i) ::
              Find(z, name, typ, DefaultFind) ==
              if Holds(z, name[..i], NS) then Delegation(RRsetAt(z, name[..i], NS)) else CutPanic
    ensures NoCutAbove(z, name, |name|) && IsCut(z, name) && Holds(z, name, NS) ==>
              Find(z, name, typ, DefaultFind) == Delegation(RRsetAt(z, name, NS))
    ensures NoCutAbove(z, name, |name|) && !(IsCut(z, name) && Holds(z, name, NS)) && InReach(z, name) ==>
              IsAnswer(z, name, typ, Find(z, name, typ, DefaultFind))
  {
    WalkDefault(z, name, |name|);
    if NoCutAbove(z, name, |name|) {
      if name in z.nodes {
        ExactAnswer(z, name, typ);
      } else if InReach(z, name) {
        PartialAnswer(z, name, typ, FindState(None, false, false));
      }
    }
  }

  /** Main result, glue-ok find on any zone: a flagged node without NS above the name is a
      panic; else a name with a node is answered from it, by its own NS set if it is a
      flagged holder of one; a name without a node gets the NS set of the topmost flagged
      node above it, or the one answer the contents allow. */
  lemma GlueOkFindByPath(z: Zone, name: Name, typ: RRType)
    requires ZoneInv(z)
    ensures var stale := exists i :: 0 <= i < |name| && IsCut(z, name[..i]) && !Holds(z, name[..i], NS);
            && (stale ==> Find(z, name, typ, GlueOkFind) == CutPanic)
            && (!stale && IsCut(z, name) && Holds(z, name, NS) ==>
                  Find(z, name, typ, GlueOkFind) == Delegation(RRsetAt(z, name, NS)))
            && (!stale && name in z.nodes && !(IsCut(z, name) && Holds(z, name, NS)) ==>
                  IsAnswer(z, name, typ, Find(z, name, typ, GlueOkFind)))
            && (!stale && name !in z.nodes ==>
                  forall i: nat | TopmostCut(z, name, |name|, i) ::
                    Find(z, name, typ, GlueOkFind) == Delegation(RRsetAt(z, name[..i], NS)))
            && (!stale && name !in z.nodes && NoCutAbove(z, name, |name|) && InReach(z, name) ==>
                  IsAnswer(z, name, typ, Find(z, name, typ, GlueOkFind)))
  {
    WalkGlueOk(z, name, |name|);
    var st := Walk(z, name, GlueOkFind, |name|);
    if name in z.nodes {
      ExactAnswer(z, name, typ);
    } else if !st.panicked {
      GlueOkPartial(z, name, typ, st);
    }
  }

  lemma GlueOkPartial(z: Zone, name: Name, typ: RRType, st: FindState)
    requires ZoneInv(z) && name !in z.nodes && st == Walk(z, name, GlueOkFind, |name|) && !st.panicked
    ensures forall i: nat | TopmostCut(z, name, |name|, i) ::
              FindPartial(z, name, typ, st) == Delegation(RRsetAt(z, name[..i], NS))
    ensures NoCutAbove(z, name, |name|) && InReach(z, name) ==> IsAnswer(z, name, typ, FindPartial(z, name, typ, st))
  {
    WalkGlueOk(z, name, |name|);
    ClosestNodeIn(z, name, |name|);
    var c := CutOrNone(z, name, |name|);
    if NoCutAbove(z, name, |name|) && InReach(z, name) {
      assert st.zonecut.None?;
      PartialAnswer(z, name, typ, st);
    }
  }

  /** Main result, default find where flags and NS sets agree: at or below a delegation
      the answer is the topmost NS set, whatever the type; otherwise it is the one answer
      the contents allow. */
  lemma DefaultFindAtCuts(z: Zone, name: Name, typ: RRType)
    requires ZoneInv(z) && CutsExact(z)
    ensures forall i: nat | DelegatedAt(z, name, i) ::
              Find(z, name, typ, DefaultFind) == Delegation(RRsetAt(z, name[..i], NS))
    ensures (forall i: nat :: !DelegatedAt(z, name, i)) && InReach(z, name) ==>
              IsAnswer(z, name, typ, Find(z, name, typ, DefaultFind))
  {
    DefaultFindByPath(z, name, typ);
    var c := CutOrNone(z, name, |name|);
    TopmostIsDelegation(z, name, c);
    assert name[..|name|] == name;
    CutsAreDelegations(z, name, |name|);
    forall i: nat | DelegatedAt(z, name, i)
      ensures Find(z, name, typ, DefaultFind) == Delegation(RRsetAt(z, name[..i], NS))
    {
      TopmostIsDelegation(z, name, i);
      if i == |name| {
        DelegatedOnce(z, name, c, i);
      }
    }
    if (forall i: nat :: !DelegatedAt(z, name, i)) && z.origin < name && Holds(z, name, NS) {
      var i := LeastDelegation(z, name, |name|);
    }
  }

  lemma DelegatedOnce(z: Zone, name: Name, i: nat, j: nat)
    ensures DelegatedAt(z, name, i) && DelegatedAt(z, name, j) ==> i == j
  {
  }

  lemma {:induction false} LeastDelegation(z: Zone, name: Name, i: nat) returns (l: nat)
    requires i <= |name| && z.origin < name[..i] && Holds(z, name[..i], NS)
    ensures DelegatedAt(z, name, l)
    decreases i
  {
    if j :| 0 <= j < i && z.origin < name[..j] && Holds(z, name[..j], NS) {
      l := LeastDelegation(z, name, j);
    } else {
      l := i;
    }
  }

  /** Main result, glue-ok find: a name with a node of its own is answered from that
      node, a delegation point by its own NS set; any other name below a delegation
      gets the topmost NS set, and any other name the one answer the contents allow. */
  lemma GlueOkFindAtCuts(z: Zone, name: Name, typ: RRType)
    requires ZoneInv(z) && CutsExact(z)
    ensures name in z.nodes && z.origin < name && Holds(z, name, NS) ==>
              Find(z, name, typ, GlueOkFind) == Delegation(RRsetAt(z, name, NS))
    ensures name in z.nodes && !(z.origin < name && Holds(z, name, NS)) ==>
              IsAnswer(z, name, typ, Find(z, name, typ, GlueOkFind))
    ensures name !in z.nodes ==>
              forall i: nat | DelegatedAt(z, name, i) ::
                Find(z, name, typ, GlueOkFind) == Delegation(RRsetAt(z, name[..i], NS))
    ensures name !in z.nodes && (forall i: nat :: !DelegatedAt(z, name, i)) && InReach(z, name) ==>
              IsAnswer(z, name, typ, Find(z, name, typ, GlueOkFind))
  {
    GlueOkWalkEnd(z, name);
    var st := Walk(z, name, GlueOkFind, |name|);
    if name in z.nodes {
      ExactAnswer(z, name, typ);
    } else {
      assert name[..|name|] == name;
      ClosestNodeIn(z, name, |name|);
      if st.zonecut.None? && InReach(z, name) {
        PartialAnswer(z, name, typ, st);
      }
    }
  }

  /** The walk of a glue-ok find neither stops nor panics, and records the topmost
      delegation properly above the name. */
  lemma GlueOkWalkEnd(z: Zone, name: Name)
    requires ZoneInv(z) && CutsExact(z)
    ensures var st := Walk(z, name, GlueOkFind, |name|);
            && !st.stopped && !st.panicked
            && (forall i: nat | i < |name| && DelegatedAt(z, name, i) :: st.zonecut == Some(name[..i]))
            && ((forall i: nat | i < |name| :: !DelegatedAt(z, name, i)) ==> st.zonecut == None)
  {
    WalkGlueOk(z, name, |name|);
    forall i | 0 <= i < |name| ensures IsCut(z, name[..i]) ==> Holds(z, name[..i], NS) {
      CutsAreDelegations(z, name, i);
    }
    var c := CutOrNone(z, name, |name|);
    TopmostIsDelegation(z, name, c);
    forall i: nat | i < |name| && DelegatedAt(z, name, i)
      ensures Walk(z, name, GlueOkFind, |name|).zonecut == Some(name[..i])
    {
      TopmostIsDelegation(z, name, i);
    }
  }

  /** A glue-ok find below a delegation gives the topmost NS set exactly when the name
      has no node of its own or is that delegation point itself: a nested delegation
      point, or any other existing name below the cut, is answered from its own node. */
  lemma GlueOkTopmostExactly(z: Zone, name: Name, typ: RRType, i: nat)
    requires ZoneInv(z) && CutsExact(z) && DelegatedAt(z, name, i)
    ensures Find(z, name, typ, GlueOkFind) == Delegation(RRsetAt(z, name[..i], NS)) <==>
            name !in z.nodes || i == |name|
  {
    GlueOkFindAtCuts(z, name, typ);
    assert name[..|name|] == name;
    if name in z.nodes && i < |name| {
      assert NodeInv(z.origin, name, z.nodes[name]);
      assert NodeInv(z.origin, name[..i], z.nodes[name[..i]]);
    }
  }

  /** Main result: in every zone built by adds alone, whatever is added and refused,
      non-apex nodes are flagged exactly when they hold NS, no find panics on a cut, and
      every default find at or below a delegation gives the topmost NS set. */
  lemma AddOnlyLookup(origin: Name, ops: seq<Op>, name: Name, typ: RRType)
    requires forall op | op in ops :: op.Add?
    ensures var z := ApplyAll(NewZone(origin), ops);
            && CutsExact(z)
            && Find(z, name, typ, DefaultFind) != CutPanic
            && Find(z, name, typ, GlueOkFind) != CutPanic
            && forall i: nat | DelegatedAt(z, name, i) ::
                 Find(z, name, typ, DefaultFind) == Delegation(RRsetAt(z, name[..i], NS))
  {
    AddsKeepCuts(origin, ops);
    var z := ApplyAll(NewZone(origin), ops);
    forall option: FindOption ensures Find(z, name, typ, option) != CutPanic {
      CutPanicExactly(z, name, typ, option);
      forall i: nat ensures !StaleCut(z, name, option, i) {
        if i <= |name| {
          CutsAreDelegations(z, name, i);
        }
      }
    }
    DefaultFindAtCuts(z, name, typ);
  }

  /** Deletes never clear the flag: once the NS set of a delegation point is deleted, with
      no other cut on the path, a default find below it panics exactly when the node is
      still in the tree; and any other data there, or data below it, keeps it there. */
  lemma DeletedCutPanics(z: Zone, rr: RRset, drop: set<Name>, name: Name, typ: RRType)
    requires ZoneInv(z)
    requires rr.typ == NS && z.origin < rr.name && Holds(z, rr.name, NS) && z.nodes[rr.name].cut
    requires rr.name < name && forall j | 0 <= j < |name| && j != |rr.name| :: !IsCut(z, name[..j])
    ensures var (z', o) := EraseRRset(z, rr, drop);
            && o == Done
            && (Find(z', name, typ, DefaultFind) == CutPanic <==> rr.name in z'.nodes)
            && (|z.nodes[rr.name].data.value| > 1 || (exists m :: rr.name < m && HasData(z.nodes, m)) ==>
                  rr.name in z'.nodes)
  {
    var z' := EraseRRset(z, rr, drop).0;
    var k := |rr.name|;
    assert name[..k] == rr.name;
    ErasedNode(z, rr.name, drop);
    forall j | 0 <= j < |name| ensures IsCut(z', name[..j]) ==> j == k {
      ErasedCut(z, rr.name, drop, name[..j]);
    }
    CutPanicExactly(z', name, typ, DefaultFind);
    if rr.name in z'.nodes {
      assert StaleCut(z', name, DefaultFind, k);
    }
  }

  lemma ErasedCut(z: Zone, n: Name, drop: set<Name>, m: Name)
    requires Holds(z, n, NS)
    ensures IsCut(EraseType(z, n, NS, drop), m) ==> IsCut(z, m)
  {
  }

  lemma ErasedNode(z: Zone, n: Name, drop: set<Name>)
    requires ZoneInv(z) && Holds(z, n, NS) && z.nodes[n].cut
    ensures var z' := EraseType(z, n, NS, drop);
            && !Holds(z', n, NS)
            && (n in z'.nodes ==> IsCut(z', n))
            && (|z.nodes[n].data.value| > 1 || (exists m :: n < m && HasData(z.nodes, m)) ==> n in z'.nodes)
  {
    var d := z.nodes[n].data.value;
    assert d.Keys - {NS} == (d - {NS}).Keys;
    assert |d.Keys - {NS}| == |d| - 1;
    if m :| n < m && HasData(z.nodes, m) {
      var emptied := z.nodes[n := z.nodes[n].(data := None)];
      assert m in emptied && emptied[m].data.Some?;
    }
  }

  /** The apex SOA and NS of a publishable zone are always found. */
  lemma ApexFound(z: Zone, typ: RRType)
    requires ZoneInv(z) && IsPublishable(z) && (typ == SOA || typ == NS)
    ensures Find(z, z.origin, typ, DefaultFind) == Success(RRsetAt(z, z.origin, typ))
  {
    forall j | 0 <= j < |z.origin| ensures !IsCut(z, z.origin[..j]) {
      if z.origin[..j] in z.nodes {
        assert NodeInv(z.origin, z.origin[..j], z.nodes[z.origin[..j]]);
      }
    }
    WalkDefault(z, z.origin, |z.origin|);
  }
}
