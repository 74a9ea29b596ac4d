/**
 Handing descriptors to the sandboxee: `IPC::SendFdsOverComms` on one side, `Client::SetUpIPC`
 and `Comms::MoveToAnotherFd` on the other.
 */
module Ipc {
  import opened Options
  import opened Descriptors

  /** An entry of `IPC::fd_map_`: the descriptor here, the number wanted there, and a name. */
  datatype Entry = Entry(localFd: int, remoteFd: int, name: string)

  datatype Message = Number(n: int) | Descriptor(file: File) | Text(s: string)

  /** What the client gets to know of an entry. */
  datatype Mapping = Mapping(requested: int, file: File, name: string)

  // ----- the messages -----

  /** The three messages of a mapping. */
  function Messages(m: Mapping): seq<Message> { [Number(m.requested), Descriptor(m.file), Text(m.name)] }

  function WireOf(ms: seq<Mapping>): seq<Message> {
    if ms == [] then [] else Messages(ms[0]) + WireOf(ms[1..])
  }

  /** The next three messages are a number, a descriptor and a text. */
  predicate WellFormed(wire: seq<Message>) {
    |wire| >= 3 && wire[0].Number? && wire[1].Descriptor? && wire[2].Text?
  }

  function First(wire: seq<Message>): Mapping
    requires WellFormed(wire)
  {
    Mapping(wire[0].n, wire[1].file, wire[2].s)
  }

  function ParseMappings(wire: seq<Message>, n: nat): Option<seq<Mapping>>
    decreases n
  {
    if n == 0 then Some([])
    else if !WellFormed(wire) then None
    else
      match ParseMappings(wire[3..], n - 1)
      case None => None
      case Some(ms) => Some([First(wire)] + ms)
  }

  function Parse(wire: seq<Message>): Option<seq<Mapping>> {
    if wire == [] || !wire[0].Number? || wire[0].n < 0 then None else ParseMappings(wire[1..], wire[0].n)
  }

  lemma ParseFirst(m: Mapping, next: seq<Message>, n: nat, ms: seq<Mapping>)
    requires ParseMappings(next, n) == Some(ms)
    ensures ParseMappings(Messages(m) + next, n + 1) == Some([m] + ms)
  {
    assert (Messages(m) + next)[3..] == next;
  }

  lemma {:induction false} ParseUndoesWire(ms: seq<Mapping>, more: seq<Message>)
    ensures ParseMappings(WireOf(ms) + more, |ms|) == Some(ms)
  {
    if ms != [] {
      assert WireOf(ms) + more == Messages(ms[0]) + (WireOf(ms[1..]) + more);
      ParseUndoesWire(ms[1..], more);
      ParseFirst(ms[0], WireOf(ms[1..]) + more, |ms| - 1, ms[1..]);
      assert [ms[0]] + ms[1..] == ms;
    }
  }

  /** The mapping that an entry stands for, given the sender's table. */
  function MappingOf(open: Table, e: Entry): Mapping {
    Mapping(e.remoteFd, if e.localFd in open then open[e.localFd] else 0, e.name)
  }

  function MappingsOf(open: Table, entries: seq<Entry>): seq<Mapping> {
    seq(|entries|, i requires 0 <= i < |entries| => MappingOf(open, entries[i]))
  }

  lemma {:induction false} WireAppend(a: seq<Mapping>, m: Mapping)
    ensures WireOf(a + [m]) == WireOf(a) + Messages(m)
  {
    if a != [] {
      assert (a + [m])[1..] == a[1..] + [m];
      WireAppend(a[1..], m);
    } else {
      assert a + [m] == [m];
    }
  }

  /** Everything that is to be sent: the count, in 32 bits, and the mappings. */
  function Outgoing(ms: seq<Mapping>): seq<Message> { [Number(|ms|)] + WireOf(ms) }

  /** What has been sent is a beginning of what is to be sent. */
  lemma {:induction false} WirePrefix(ms: seq<Mapping>, n: nat)
    requires n <= |ms|
    ensures WireOf(ms[..n]) <= WireOf(ms)
    decreases n
  {
    if n > 0 {
      assert ms[..n][1..] == ms[1..][..n - 1];
      WirePrefix(ms[1..], n - 1);
    }
  }

  /** What is sent before mapping number `n`. */
  function Sent(ms: seq<Mapping>, n: nat): seq<Message>
    requires n <= |ms|
  {
    [Number(|ms|)] + WireOf(ms[..n])
  }

  lemma SentNext(ms: seq<Mapping>, n: nat)
    requires n < |ms|
    ensures Sent(ms, n + 1) == Sent(ms, n) + Messages(ms[n])
  {
    var before, m := ms[..n], ms[n];
    WireAppend(before, m);
    assert ms[..n + 1] == before + [m];
    assert [Number(|ms|)] + (WireOf(before) + Messages(m)) == [Number(|ms|)] + WireOf(before) + Messages(m);
  }

  lemma SentBegins(ms: seq<Mapping>, n: nat)
    requires n <= |ms|
    ensures Sent(ms, n) <= Outgoing(ms)
    ensures n == |ms| ==> Sent(ms, n) == Outgoing(ms)
  {
    WirePrefix(ms, n);
    assert n == |ms| ==> ms[..n] == ms;
  }

  /** The other side reads what is sent. */
  lemma ParseOutgoing(ms: seq<Mapping>)
    ensures Parse(Outgoing(ms)) == Some(ms)
  {
    ParseUndoesWire(ms, []);
    assert Outgoing(ms)[1..] == WireOf(ms) + [];
  }

  /** A message is sent, unless the connection has taken all that it will take. */
  method SendMessage(wire: seq<Message>, m: Message, taken: nat) returns (ok: bool, wire': seq<Message>)
    ensures ok <==> |wire| < taken
    ensures wire' == if ok then wire + [m] else wire
  {
    ok := |wire| < taken;
    wire' := if ok then wire + [m] else wire;
  }

  /** The three messages of an entry, or a beginning of them; a descriptor that is not open is not
      sent. */
  method SendEntry(open: Table, e: Entry, wire: seq<Message>, taken: nat) returns (ok: bool, wire': seq<Message>)
    requires |wire| <= taken
    ensures wire' <= wire + Messages(MappingOf(open, e)) && |wire'| <= taken
    ensures ok <==> wire' == wire + Messages(MappingOf(open, e))
    ensures ok <==> e.localFd in open && |wire| + 3 <= taken
    ensures !ok ==> |wire'| == taken || e.localFd !in open
  {
    ok, wire' := SendMessage(wire, Number(e.remoteFd), taken);
    if !ok {
      return;
    }
    if e.localFd !in open {
      return false, wire';
    }
    ok, wire' := SendMessage(wire', Descriptor(open[e.localFd]), taken);
    if !ok {
      return;
    }
    ok, wire' := SendMessage(wire', Text(e.name), taken);
  }

  /** However many messages the connection takes, a beginning of them is sent.  It is all of them
      exactly on success, that is when the connection takes them and every descriptor is open, and
      then the other side reads the entries of the map. */
  method SendFdsOverComms(open: Table, entries: seq<Entry>, taken: nat) returns (ok: bool, wire: seq<Message>)
    requires |entries| < 0x1_0000_0000
    ensures wire <= Outgoing(MappingsOf(open, entries))
    ensures ok <==> wire == Outgoing(MappingsOf(open, entries))
    ensures ok <==> |Outgoing(MappingsOf(open, entries))| <= taken && forall e :: e in entries ==> e.localFd in open
    ensures ok ==> Parse(wire) == Some(MappingsOf(open, entries))
  {
    ghost var ms := MappingsOf(open, entries);
    ok, wire := SendMessage([], Number(|entries|), taken);
    SentBegins(ms, 0);
    if !ok {
      return;
    }
    for i := 0 to |entries|
      invariant wire == Sent(ms, i) && |wire| <= taken
      invariant forall j :: 0 <= j < i ==> entries[j].localFd in open
    {
      SentNext(ms, i);
      SentBegins(ms, i + 1);
      assert entries[i] in entries;
      ok, wire := SendEntry(open, entries[i], wire, taken);
      if !ok {
        assert |wire| < |Sent(ms, i + 1)|;
        return;
      }
    }
    ok := true;
    SentBegins(ms, |ms|);
    ParseOutgoing(ms);
  }

  // ----- installing the mappings -----

  /** The untracked part of the table after mappings have been installed at `nums`, in order. */
  function Installed(rest: Table, ms: seq<Mapping>, nums: seq<int>): Table
    requires |ms| == |nums|
  {
    if ms == [] then rest
    else
      var n := |ms| - 1;
      Installed(rest, ms[..n], nums[..n])[nums[n] := ms[n].file]
  }

  /** A mapping stays installed unless a later one takes its number. */
  lemma {:induction false} InstalledStays(rest: Table, ms: seq<Mapping>, nums: seq<int>, i: nat)
    requires |ms| == |nums| && i < |ms| && forall j :: i < j < |ms| ==> nums[j] != nums[i]
    ensures nums[i] in Installed(rest, ms, nums) && Installed(rest, ms, nums)[nums[i]] == ms[i].file
    decreases |ms|
  {
    var n := |ms| - 1;
    if i < n {
      InstalledStays(rest, ms[..n], nums[..n], i);
    }
  }

  /** What no mapping takes is left as it was. */
  lemma {:induction false} InstalledLeaves(rest: Table, ms: seq<Mapping>, nums: seq<int>, m: int)
    requires |ms| == |nums| && m !in nums
    ensures m in Installed(rest, ms, nums) <==> m in rest
    ensures m in rest ==> Installed(rest, ms, nums)[m] == rest[m]
    decreases |ms|
  {
    if ms != [] {
      var n := |ms| - 1;
      assert nums[n] in nums;
      InstalledLeaves(rest, ms[..n], nums[..n], m);
    }
  }

  lemma {:induction false} InstalledHas(rest: Table, ms: seq<Mapping>, nums: seq<int>, i: nat)
    requires |ms| == |nums| && i < |ms|
    ensures nums[i] in Installed(rest, ms, nums)
    decreases |ms|
  {
    var n := |ms| - 1;
    if i < n {
      InstalledHas(rest, ms[..n], nums[..n], i);
    }
  }

  /** The numbers are those asked for, or free ones: of a table whose numbers stay in use from
      `open0` on, and whose untracked part is `rest` at first. */
  ghost predicate Picked(open0: Table, rest: Table, ms: seq<Mapping>, nums: seq<int>) {
    |ms| == |nums| && forall i :: 0 <= i < |ms| ==> PickedAt(open0, rest, ms, nums, i)
  }

  ghost predicate PickedAt(open0: Table, rest: Table, ms: seq<Mapping>, nums: seq<int>, i: nat)
    requires i < |ms| == |nums|
  {
    && Arrives(open0, ms[i], nums[i])
    && Arrives(Installed(rest, ms[..i], nums[..i]), ms[i], nums[i])
  }

  lemma PickedMore(open0: Table, rest: Table, ms: seq<Mapping>, nums: seq<int>, m: Mapping, fd: int, open: Table)
    requires Picked(open0, rest, ms, nums) && Arrives(open, m, fd)
    requires open0.Keys <= open.Keys && Installed(rest, ms, nums).Keys <= open.Keys
    ensures Picked(open0, rest, ms + [m], nums + [fd])
  {
    var ms', nums' := ms + [m], nums + [fd];
    forall i | 0 <= i < |ms'| ensures PickedAt(open0, rest, ms', nums', i) {
      if i < |ms| {
        assert PickedAt(open0, rest, ms, nums, i);
        assert ms'[..i] == ms[..i] && nums'[..i] == nums[..i];
      } else {
        assert ms'[..i] == ms && nums'[..i] == nums;
      }
    }
  }

  /** No number is asked for twice, and none that is free at first is asked for behind a mapping
      that asks for no number. */
  predicate Safe(open0: Table, ms: seq<Mapping>) {
    forall i, j :: 0 <= i < j < |ms| && ms[j].requested != -1 ==>
      if ms[i].requested == -1 then ms[j].requested in open0 else ms[i].requested != ms[j].requested
  }

  /** Then all numbers differ, whichever free ones are picked. */
  lemma SafePicks(open0: Table, rest: Table, ms: seq<Mapping>, nums: seq<int>, i: nat, j: nat)
    requires Picked(open0, rest, ms, nums) && Safe(open0, ms) && i < j < |ms|
    ensures nums[i] != nums[j]
  {
    assert PickedAt(open0, rest, ms, nums, i) && PickedAt(open0, rest, ms, nums, j);
    InstalledHas(rest, ms[..j], nums[..j], i);
  }

  /** And every mapping stays where it was put. */
  lemma SafeStays(open0: Table, rest: Table, ms: seq<Mapping>, nums: seq<int>)
    requires Picked(open0, rest, ms, nums) && Safe(open0, ms)
    ensures forall i :: 0 <= i < |ms| ==>
              nums[i] in Installed(rest, ms, nums) && Installed(rest, ms, nums)[nums[i]] == ms[i].file
  {
    forall i | 0 <= i < |ms|
      ensures nums[i] in Installed(rest, ms, nums) && Installed(rest, ms, nums)[nums[i]] == ms[i].file
    {
      forall j | i < j < |ms| ensures nums[j] != nums[i] {
        SafePicks(open0, rest, ms, nums, i, j);
      }
      InstalledStays(rest, ms, nums, i);
    }
  }

  /** The tracked variables hold distinct open descriptors. */
  ghost predicate Separate(ts: set<Ptr>, open: Table, vals: map<Ptr, int>) {
    && ts <= vals.Keys
    && (forall p :: p in ts ==> vals[p] in open && vals[p] >= 0)
    && (forall p, q :: p in ts && q in ts && p != q ==> vals[p] != vals[q])
  }

  /** `dup`, `close` and store: a tracked variable moves to a new number and frees its old one. */
  method MoveAway(proc: Process, p: Ptr, ghost ts: set<Ptr>, ghost files: map<Ptr, File>, ghost fdMap: map<int, Ptr>,
                  ghost owner: map<int, Ptr>, ghost rest: Table)
    returns (ok: bool, fd: int, ghost owner': map<int, Ptr>)
    requires Good(ts, files, proc.open, proc.vars, fdMap, owner, rest) && p in ts && forall n :: n in owner ==> n >= 0
    modifies proc
    ensures ok ==> Good(ts, files, proc.open, proc.vars, Remap(fdMap, old(proc.vars[p]), fd), owner', rest)
    ensures ok ==> old(proc.vars[p]) !in owner' && proc.vars == old(proc.vars)[p := fd]
    ensures ok ==> (forall n :: n in owner' ==> n >= 0) && fd !in old(proc.open)
    ensures ok ==> old(proc.open).Keys - {old(proc.vars[p])} <= proc.open.Keys && proc.refused == old(proc.refused)
    ensures !ok ==> proc.vars == old(proc.vars) && proc.refused
  {
    var t := proc.vars[p];
    assert t in owner && owner[t] == p;
    ghost var open := proc.open;
    fd := proc.Dup(t);
    if fd == -1 {
      return false, fd, owner;
    }
    Relocate(ts, files, open, proc.vars, fdMap, owner, rest, t, fd);
    owner' := owner[fd := p] - {t};
    proc.Close(t);
    proc.vars := proc.vars[p := fd];
    CloseUnowned(ts, files, open[fd := open[t]], proc.vars, Remap(fdMap, t, fd), owner', rest[t := open[t]], t);
    assert rest[t := open[t]] - {t} == rest;
    return true, fd, owner';
  }

  lemma CloseUnowned(ts: set<Ptr>, files: map<Ptr, File>, open: Table, vals: map<Ptr, int>, fdMap: map<int, Ptr>,
                     owner: map<int, Ptr>, rest: Table, t: int)
    requires Good(ts, files, open, vals, fdMap, owner, rest) && t !in owner
    ensures Good(ts, files, open - {t}, vals, fdMap, owner, rest - {t})
  {
    assert (open - {t}).Keys == owner.Keys + (rest - {t}).Keys;
  }

  /** A file at a number that no tracked variable holds joins the rest of the table. */
  lemma OpenUnowned(ts: set<Ptr>, files: map<Ptr, File>, open: Table, vals: map<Ptr, int>, fdMap: map<int, Ptr>,
                    owner: map<int, Ptr>, rest: Table, t: int, file: File)
    requires Good(ts, files, open, vals, fdMap, owner, rest) && t !in owner
    ensures Good(ts, files, open[t := file], vals, fdMap, owner, rest[t := file])
  {
    assert open[t := file].Keys == owner.Keys + rest[t := file].Keys;
  }

  /** The tracked variables keep their files; everything else in the table is the rest. */
  ghost predicate Keeps(ts: set<Ptr>, files: map<Ptr, File>, open: Table, vals: map<Ptr, int>, fdMap: map<int, Ptr>,
                        owner: map<int, Ptr>, rest: Table)
  {
    Good(ts, files, open, vals, fdMap, owner, rest) && forall n :: n in owner ==> n >= 0
  }

  /** The map knows exactly the preserved variables. */
  ghost predicate MapsPreserved(ps: set<Ptr>, vals: map<Ptr, int>, fdMap: map<int, Ptr>)
    requires ps <= vals.Keys
  {
    && (forall p :: p in ps ==> vals[p] in fdMap && fdMap[vals[p]] == p)
    && (forall n :: n in fdMap ==> fdMap[n] in ps && vals[fdMap[n]] == n)
  }

  /** The preserved variables and the one of the connection keep their files, and the map knows
      where the preserved ones are. */
  ghost predicate Held(ps: set<Ptr>, comms: Ptr, files: map<Ptr, File>, open: Table, vals: map<Ptr, int>,
                       fdMap: map<int, Ptr>, owner: map<int, Ptr>, rest: Table)
  {
    && comms !in ps && ps <= vals.Keys && comms in vals
    && Keeps(ps + {comms}, files, open, vals, fdMap, owner, rest) && MapsPreserved(ps, vals, fdMap)
  }

  /** A descriptor that is wanted at `requested`: whatever tracked variable is there moves away. */
  method ClearNumber(proc: Process, comms: Ptr, requested: int, fdMap: map<int, Ptr>, ghost ps: set<Ptr>,
                     ghost files: map<Ptr, File>, ghost owner: map<int, Ptr>, ghost rest: Table)
    returns (ok: bool, fdMap': map<int, Ptr>, ghost owner': map<int, Ptr>)
    requires Held(ps, comms, files, proc.open, proc.vars, fdMap, owner, rest)
    modifies proc
    ensures OnlyTracked(ps + {comms}, old(proc.vars), proc.vars)
    ensures ok ==> Held(ps, comms, files, proc.open, proc.vars, fdMap', owner', rest) && requested !in owner'
    ensures ok ==> old(proc.open).Keys - {requested} <= proc.open.Keys && proc.refused == old(proc.refused)
    ensures requested !in owner ==> proc.open == old(proc.open)
    ensures !ok ==> proc.refused
  {
    fdMap', owner' := fdMap, owner;
    var fd: int;
    if requested in fdMap {
      var pfd := fdMap[requested];
      ok, fd, owner' := MoveAway(proc, pfd, ps + {comms}, files, fdMap, owner, rest);
      if !ok {
        return false, fdMap', owner';
      }
      fdMap' := (fdMap - {requested})[fd := pfd];
      assert fdMap' == Remap(fdMap, requested, fd);
    }
    if requested == proc.vars[comms] {
      assert requested !in fdMap';
      ok, fd, owner' := MoveAway(proc, comms, ps + {comms}, files, fdMap', owner', rest);
      if !ok {
        return false, fdMap', owner';
      }
    }
    return true, fdMap', owner';
  }

  /** `dup2` and `close`: an untracked descriptor moves to a number that no tracked variable holds. */
  method PutAtNumber(proc: Process, fd: int, t: int, ghost ts: set<Ptr>, ghost files: map<Ptr, File>,
                     ghost fdMap: map<int, Ptr>, ghost owner: map<int, Ptr>, ghost rest: Table)
    returns (ok: bool)
    requires Keeps(ts, files, proc.open, proc.vars, fdMap, owner, rest) && fd in rest && t != fd && t !in owner
    modifies proc
    ensures proc.vars == old(proc.vars)
    ensures ok ==> Keeps(ts, files, proc.open, proc.vars, fdMap, owner, rest[t := rest[fd]] - {fd}) && t >= 0
    ensures ok ==> old(proc.open).Keys + {t} - {fd} <= proc.open.Keys && proc.refused == old(proc.refused)
    ensures !ok ==> proc.refused || t < 0
  {
    ghost var open := proc.open;
    var r := proc.Dup2(fd, t);
    if r == -1 {
      return false;
    }
    OpenUnowned(ts, files, open, proc.vars, fdMap, owner, rest, t, rest[fd]);
    open := proc.open;
    proc.Close(fd);
    CloseUnowned(ts, files, open, proc.vars, fdMap, owner, rest[t := rest[fd]], fd);
    return true;
  }

  /** One iteration: the descriptor of a mapping arrives and is put where it is wanted. */
  method Install(proc: Process, comms: Ptr, m: Mapping, fdMap: map<int, Ptr>, ghost ps: set<Ptr>,
                 ghost files: map<Ptr, File>, ghost owner: map<int, Ptr>, ghost rest: Table)
    returns (ok: bool, fd: int, fdMap': map<int, Ptr>, ghost owner': map<int, Ptr>)
    requires Held(ps, comms, files, proc.open, proc.vars, fdMap, owner, rest)
    modifies proc
    ensures OnlyTracked(ps + {comms}, old(proc.vars), proc.vars)
    ensures ok ==> Held(ps, comms, files, proc.open, proc.vars, fdMap', owner', rest[fd := m.file])
    ensures ok ==> Arrives(old(proc.open), m, fd)
    ensures ok ==> old(proc.open).Keys <= proc.open.Keys && proc.refused == old(proc.refused)
    ensures !ok ==> proc.refused || m.requested < -1
  {
    ghost var open := proc.open;
    fd := Receive(proc, comms, m.file, ps, files, fdMap, owner, rest);
    ok, fdMap', owner' := ClearNumber(proc, comms, m.requested, fdMap, ps, files, owner, rest[fd := m.file]);
    if !ok {
      return;
    }
    ghost var received, cleared := fd, proc.open;
    ok, fd := Place(proc, comms, fd, m, ps, files, fdMap', owner', rest);
    if ok {
      StaysInUse(open.Keys, cleared.Keys, proc.open.Keys, received, m.requested, fd, m.requested in owner);
    }
  }

  /** A descriptor arrives at a free number. */
  method Receive(proc: Process, comms: Ptr, file: File, ghost ps: set<Ptr>, ghost files: map<Ptr, File>,
                 ghost fdMap: map<int, Ptr>, ghost owner: map<int, Ptr>, ghost rest: Table)
    returns (fd: int)
    requires Held(ps, comms, files, proc.open, proc.vars, fdMap, owner, rest)
    modifies proc`open
    ensures fd >= 0 && fd !in old(proc.open) && proc.open == old(proc.open)[fd := file] && fd !in rest && fd !in owner
    ensures Held(ps, comms, files, proc.open, proc.vars, fdMap, owner, rest[fd := file])
  {
    ghost var open := proc.open;
    fd := proc.Receive(file);
    OpenUnowned(ps + {comms}, files, open, proc.vars, fdMap, owner, rest, fd, file);
  }

  /** The received descriptor goes to the number asked for, if any. */
  method Place(proc: Process, comms: Ptr, fd: int, m: Mapping, ghost ps: set<Ptr>, ghost files: map<Ptr, File>,
               ghost fdMap: map<int, Ptr>, ghost owner: map<int, Ptr>, ghost rest: Table)
    returns (ok: bool, fd': int)
    requires Held(ps, comms, files, proc.open, proc.vars, fdMap, owner, rest[fd := m.file]) && fd !in rest && fd >= 0
    requires m.requested !in owner
    modifies proc
    ensures proc.vars == old(proc.vars)
    ensures ok ==> Held(ps, comms, files, proc.open, proc.vars, fdMap, owner, rest[fd' := m.file])
    ensures ok ==> fd' >= 0 && fd' == (if m.requested == -1 then fd else m.requested)
    ensures ok ==> (fd' == fd ==> proc.open == old(proc.open)) && old(proc.open).Keys + {fd'} - {fd} <= proc.open.Keys
    ensures ok ==> proc.refused == old(proc.refused)
    ensures !ok ==> proc.refused || m.requested < -1
  {
    if m.requested == -1 || fd == m.requested {
      return true, fd;
    }
    ok := PutAtNumber(proc, fd, m.requested, ps + {comms}, files, fdMap, owner, rest[fd := m.file]);
    fd' := m.requested;
    assert rest[fd := m.file][fd' := m.file] - {fd} == rest[fd' := m.file];
  }

  /** What was in use is in use when a descriptor was received, perhaps one was moved away from the
      number asked for, and the received one was perhaps put there. */
  lemma StaysInUse(before: set<int>, cleared: set<int>, after: set<int>, received: int, t: int, fd: int, moved: bool)
    requires received !in before && before + {received} - {t} <= cleared && (!moved ==> cleared == before + {received})
    requires cleared + {fd} - {received} <= after
             && (fd == received ==> after == cleared && !moved) && fd in {received, t}
    ensures before <= after
  {
  }

  /** A mapping is put at the number it asks for, or at one that was free. */
  predicate Arrives(open: Table, m: Mapping, fd: int) {
    fd >= 0 && if m.requested == -1 then fd !in open else fd == m.requested
  }

  /** The tracked variables refer to the files they referred to, under distinct numbers; other
      variables are unchanged. */
  ghost predicate Preserved(ts: set<Ptr>, open: Table, vals: map<Ptr, int>, open': Table, vals': map<Ptr, int>)
    requires Separate(ts, open, vals)
  {
    && vals'.Keys == vals.Keys
    && (forall p :: p in ts ==> vals'[p] in open' && open'[vals'[p]] == open[vals[p]])
    && (forall p, q :: p in ts && q in ts && p != q ==> vals'[p] != vals'[q])
    && (forall p :: p in vals && p !in ts ==> vals'[p] == vals[p])
  }

  /** The descriptors that no tracked variable holds. */
  ghost function Untracked(ts: set<Ptr>, open: Table, vals: map<Ptr, int>): Table
    requires ts <= vals.Keys
  {
    map n | n in open && (forall p :: p in ts ==> vals[p] != n) :: open[n]
  }

  /** The names given to mappings, in order. */
  function Names(ms: seq<Mapping>, nums: seq<int>): map<string, int>
    requires |ms| == |nums|
  {
    if ms == [] then map[]
    else
      var n := |ms| - 1;
      var names := Names(ms[..n], nums[..n]);
      if ms[n].name == "" then names else names[ms[n].name := nums[n]]
  }

  ghost predicate DistinctNames(ms: seq<Mapping>) {
    forall i, j :: 0 <= i < j < |ms| && ms[i].name != "" ==> ms[i].name != ms[j].name
  }

  lemma InUntracked(ts: set<Ptr>, open: Table, vals: map<Ptr, int>, owner: map<int, Ptr>, n: int)
    requires Owns(ts, vals, owner)
    ensures n in Untracked(ts, open, vals) <==> n in open && n !in owner
  {
    if n in owner {
      assert owner[n] in ts && vals[owner[n]] == n;
    }
  }

  lemma SplitsUntracked(ts: set<Ptr>, open: Table, vals: map<Ptr, int>, owner: map<int, Ptr>)
    requires Owns(ts, vals, owner) && owner.Keys <= open.Keys
    ensures Splits(open, owner, Untracked(ts, open, vals))
  {
    var u := Untracked(ts, open, vals);
    forall n ensures n in u <==> n in open && n !in owner {
      InUntracked(ts, open, vals, owner, n);
    }
  }

  lemma SplitsUnique(open: Table, owner: map<int, Ptr>, a: Table, b: Table)
    requires Splits(open, owner, a) && Splits(open, owner, b)
    ensures a == b
  {
    assert a.Keys == open.Keys - owner.Keys == b.Keys;
    assert forall n :: n in a ==> a[n] == open[n] == b[n];
  }

  lemma StartKeeps(ts: set<Ptr>, open: Table, vals: map<Ptr, int>)
    requires Separate(ts, open, vals)
    ensures Keeps(ts, map p | p in ts :: open[vals[p]], open, vals, map[], OwnerOf(ts, vals), Untracked(ts, open, vals))
  {
    SplitsUntracked(ts, open, vals, OwnerOf(ts, vals));
  }

  lemma EndPreserved(ts: set<Ptr>, open: Table, vals: map<Ptr, int>, open': Table, vals': map<Ptr, int>,
                     fdMap: map<int, Ptr>, owner: map<int, Ptr>, rest: Table)
    requires Separate(ts, open, vals) && vals'.Keys == vals.Keys
    requires forall q :: q in vals && q !in ts ==> vals'[q] == vals[q]
    requires Keeps(ts, map p | p in ts :: open[vals[p]], open', vals', fdMap, owner, rest)
    ensures Preserved(ts, open, vals, open', vals') && Untracked(ts, open', vals') == rest
  {
    forall p | p in ts ensures vals'[p] in open' && open'[vals'[p]] == open[vals[p]] {
      var n := vals'[p];
      assert n in owner && owner[n] == p;
    }
    SplitsUntracked(ts, open', vals', owner);
    SplitsUnique(open', owner, rest, Untracked(ts, open', vals'));
  }

  /** What is wrong with the messages when `SetUpIPC` fails and the kernel has refused nothing. */
  ghost predicate Unusable(mappings: Option<seq<Mapping>>) {
    mappings.None? || !DistinctNames(mappings.value) || exists m :: m in mappings.value && m.requested < -1
  }

  lemma SafeAtEnd(open0: Table, rest: Table, ms: seq<Mapping>, nums: seq<int>, ts: set<Ptr>, open: Table,
                  vals: map<Ptr, int>)
    requires Picked(open0, rest, ms, nums) && Safe(open0, ms)
    requires ts <= vals.Keys && Untracked(ts, open, vals) == Installed(rest, ms, nums)
    ensures forall i :: 0 <= i < |ms| ==> nums[i] in open && open[nums[i]] == ms[i].file
  {
    SafeStays(open0, rest, ms, nums);
    forall n | n in Untracked(ts, open, vals) ensures n in open && open[n] == Untracked(ts, open, vals)[n] {
    }
  }

  /** `SetUpIPC`: the comms connection and the preserved descriptors keep referring to their files,
      with the variables holding the current numbers, and the rest of the table is as it was with
      every mapping installed in order, unless the process is ended because the kernel refuses to
      duplicate a descriptor or the messages are unusable.  When no request is taken twice or by a
      mapping that asks for no number, every mapping ends up at its number. */
  method SetUpIPC(proc: Process, comms: Ptr, preserve: seq<Ptr>, wire: seq<Message>)
    returns (ok: bool, names: map<string, int>, ghost nums: seq<int>)
    requires comms !in preserve
    requires Separate(TrackedBy(comms, preserve), proc.open, proc.vars)
    modifies proc
    ensures ok ==> Preserved(TrackedBy(comms, preserve), old(proc.open), old(proc.vars), proc.open, proc.vars)
    ensures ok ==> Parse(wire).Some? && proc.refused == old(proc.refused)
    ensures ok ==> Picked(old(proc.open), Untracked(TrackedBy(comms, preserve), old(proc.open), old(proc.vars)),
                          Parse(wire).value, nums)
    ensures !ok ==> proc.refused || Unusable(Parse(wire))
    ensures ok && Safe(old(proc.open), Parse(wire).value) ==>
              forall i :: 0 <= i < |nums| ==> nums[i] in proc.open && proc.open[nums[i]] == Parse(wire).value[i].file
    ensures ok ==> Untracked(TrackedBy(comms, preserve), proc.open, proc.vars)
                   == Installed(Untracked(TrackedBy(comms, preserve), old(proc.open), old(proc.vars)),
                                Parse(wire).value, nums)
    ensures ok ==> DistinctNames(Parse(wire).value) && names == Names(Parse(wire).value, nums)
  {
    nums := [];
    names := map[];
    if wire == [] || !wire[0].Number? || wire[0].n < 0 {
      return false, names, nums;
    }
    var count: nat, next := wire[0].n, wire[1..];
    ghost var ts := TrackedBy(comms, preserve);
    ghost var files := map p | p in ts :: proc.open[proc.vars[p]];
    ghost var owner := OwnerOf(ts, proc.vars);
    ghost var rest := Untracked(ts, proc.open, proc.vars);
    StartKeeps(ts, proc.open, proc.vars);
    var fdMap := MapOf(proc.vars, preserve, ts, owner);
    ghost var ms, fdMap', owner';
    ok, names, nums, ms, fdMap', owner' :=
      InstallAll(proc, comms, next, count, fdMap, (set p | p in preserve), files, owner, rest);
    if ok {
      EndPreserved(ts, old(proc.open), old(proc.vars), proc.open, proc.vars, fdMap', owner', Installed(rest, ms, nums));
      if Safe(old(proc.open), ms) {
        SafeAtEnd(old(proc.open), rest, ms, nums, ts, proc.open, proc.vars);
      }
    }
  }

  /** The loop over the mappings. */
  method InstallAll(proc: Process, comms: Ptr, wire: seq<Message>, count: nat, fdMap0: map<int, Ptr>,
                    ghost ps: set<Ptr>, ghost files: map<Ptr, File>, ghost owner0: map<int, Ptr>, ghost rest: Table)
    returns (ok: bool, names: map<string, int>, ghost nums: seq<int>, ghost done: seq<Mapping>,
             ghost fdMap': map<int, Ptr>, ghost owner: map<int, Ptr>)
    requires Held(ps, comms, files, proc.open, proc.vars, fdMap0, owner0, rest)
    modifies proc
    ensures OnlyTracked(ps + {comms}, old(proc.vars), proc.vars)
    ensures ok ==> ParseMappings(wire, count) == Some(done) && Recorded(done, nums, names)
    ensures ok ==> Keeps(ps + {comms}, files, proc.open, proc.vars, fdMap', owner, Installed(rest, done, nums))
    ensures ok ==> Picked(old(proc.open), rest, done, nums) && proc.refused == old(proc.refused)
    ensures !ok ==> proc.refused || Unusable(ParseMappings(wire, count))
  {
    ok, names, nums, done, owner := true, map[], [], [], owner0;
    var fdMap, next := fdMap0, wire;
    ghost var all := ParseMappings(wire, count);
    StartReading(wire, count);
    for i := 0 to count
      invariant ReadSoFar(all, next, count - i, done) && Recorded(done, nums, names)
      invariant Picked(old(proc.open), rest, done, nums) && old(proc.open).Keys <= proc.open.Keys
      invariant OnlyTracked(ps + {comms}, old(proc.vars), proc.vars) && proc.refused == old(proc.refused)
      invariant Held(ps, comms, files, proc.open, proc.vars, fdMap, owner, Installed(rest, done, nums))
    {
      ghost var before := proc.vars;
      ok, names, next, fdMap, nums, done, owner :=
        InstallOne(proc, comms, names, next, fdMap, ps, files, owner, rest, nums, done, old(proc.open), all, count - i);
      OnlyTrackedTrans(ps + {comms}, old(proc.vars), before, proc.vars);
      if !ok {
        return false, names, nums, done, fdMap, owner;
      }
    }
    EndReading(all, next, done);
    return true, names, nums, done, fdMap, owner;
  }

  lemma StartReading(wire: seq<Message>, count: nat)
    ensures ReadSoFar(ParseMappings(wire, count), wire, count, [])
  {
    match ParseMappings(wire, count)
    case None =>
    case Some(ms) => assert [] + ms == ms;
  }

  lemma EndReading(all: Option<seq<Mapping>>, next: seq<Message>, done: seq<Mapping>)
    requires ReadSoFar(all, next, 0, done)
    ensures all == Some(done)
  {
    assert done + [] == done;
  }

  /** One iteration: the next mapping is installed and recorded under its name. */
  method InstallOne(proc: Process, comms: Ptr, names: map<string, int>, next: seq<Message>, fdMap: map<int, Ptr>,
                    ghost ps: set<Ptr>, ghost files: map<Ptr, File>, ghost owner: map<int, Ptr>, ghost rest: Table,
                    ghost nums: seq<int>, ghost done: seq<Mapping>, ghost open0: Table,
                    ghost all: Option<seq<Mapping>>, ghost n: nat)
    returns (ok: bool, names': map<string, int>, next': seq<Message>, fdMap': map<int, Ptr>,
             ghost nums': seq<int>, ghost done': seq<Mapping>, ghost owner': map<int, Ptr>)
    requires Recorded(done, nums, names) && ReadSoFar(all, next, n, done) && n > 0
    requires Held(ps, comms, files, proc.open, proc.vars, fdMap, owner, Installed(rest, done, nums))
    requires Picked(open0, rest, done, nums) && open0.Keys <= proc.open.Keys
    modifies proc
    ensures OnlyTracked(ps + {comms}, old(proc.vars), proc.vars)
    ensures ok ==> Recorded(done', nums', names') && ReadSoFar(all, next', n - 1, done')
    ensures ok ==> Picked(open0, rest, done', nums')
                   && open0.Keys <= proc.open.Keys && proc.refused == old(proc.refused)
    ensures ok ==> Held(ps, comms, files, proc.open, proc.vars, fdMap', owner', Installed(rest, done', nums'))
    ensures !ok ==> proc.refused || Unusable(all)
  {
    names', next', nums', done' := names, next, nums, done;
    var m, fd;
    ok, m, fd, fdMap', owner' := InstallNext(proc, comms, next, fdMap, ps, files, owner, Installed(rest, done, nums));
    if !ok || m.name in names {
      if !proc.refused {
        Explains(all, next, n, done, nums, names);
      }
      ok := false;
      return;
    }
    ParseOneMore(all, next, n, done);
    OneMore(rest, done, nums, names, m, fd);
    PickedMore(open0, rest, done, nums, m, fd, old(proc.open));
    if m.name != "" {
      names' := names[m.name := fd];
    }
    next', done', nums' := next[3..], done + [m], nums + [fd];
  }

  /** Of the mappings `all`, those in `done` have been read, and `n` are left in `next`. */
  ghost predicate ReadSoFar(all: Option<seq<Mapping>>, next: seq<Message>, n: nat, done: seq<Mapping>) {
    all == match ParseMappings(next, n) case None => None case Some(ms) => Some(done + ms)
  }

  /** The mappings have their numbers and distinct names. */
  ghost predicate Recorded(ms: seq<Mapping>, nums: seq<int>, names: map<string, int>) {
    && |ms| == |nums| && DistinctNames(ms) && names == Names(ms, nums)
    && forall j :: 0 <= j < |ms| && ms[j].requested != -1 ==> nums[j] == ms[j].requested
  }

  /** The next three messages are read and the mapping is installed. */
  method InstallNext(proc: Process, comms: Ptr, next: seq<Message>, fdMap: map<int, Ptr>, ghost ps: set<Ptr>,
                     ghost files: map<Ptr, File>, ghost owner: map<int, Ptr>, ghost rest: Table)
    returns (ok: bool, m: Mapping, fd: int, fdMap': map<int, Ptr>, ghost owner': map<int, Ptr>)
    requires Held(ps, comms, files, proc.open, proc.vars, fdMap, owner, rest)
    modifies proc
    ensures OnlyTracked(ps + {comms}, old(proc.vars), proc.vars)
    ensures ok ==> WellFormed(next) && m == First(next) && Arrives(old(proc.open), m, fd)
    ensures ok ==> old(proc.open).Keys <= proc.open.Keys && proc.refused == old(proc.refused)
    ensures !ok ==> proc.refused || !WellFormed(next) || First(next).requested < -1
    ensures ok ==> Held(ps, comms, files, proc.open, proc.vars, fdMap', owner', rest[fd := m.file])
  {
    if !WellFormed(next) {
      return false, Mapping(-1, 0, ""), -1, fdMap, owner;
    }
    m := First(next);
    ok, fd, fdMap', owner' := Install(proc, comms, m, fdMap, ps, files, owner, rest);
  }

  lemma {:induction false} NamesKnown(ms: seq<Mapping>, nums: seq<int>)
    requires |ms| == |nums|
    ensures forall i :: 0 <= i < |ms| && ms[i].name != "" ==> ms[i].name in Names(ms, nums)
    ensures "" !in Names(ms, nums)
    decreases |ms|
  {
    if ms != [] {
      var n := |ms| - 1;
      NamesKnown(ms[..n], nums[..n]);
      assert forall i :: 0 <= i < n ==> ms[..n][i] == ms[i];
    }
  }

  /** With distinct names every named mapping is found under its name. */
  lemma {:induction false} NamesGive(ms: seq<Mapping>, nums: seq<int>, i: nat)
    requires |ms| == |nums| && DistinctNames(ms) && i < |ms| && ms[i].name != ""
    ensures ms[i].name in Names(ms, nums) && Names(ms, nums)[ms[i].name] == nums[i]
    decreases |ms|
  {
    var n := |ms| - 1;
    if i < n {
      NamesGive(ms[..n], nums[..n], i);
    }
  }

  lemma OneMore(rest: Table, ms: seq<Mapping>, nums: seq<int>, names: map<string, int>, m: Mapping, fd: int)
    requires Recorded(ms, nums, names) && m.name !in names && (m.requested != -1 ==> fd == m.requested)
    ensures Installed(rest, ms + [m], nums + [fd]) == Installed(rest, ms, nums)[fd := m.file]
    ensures Recorded(ms + [m], nums + [fd], if m.name == "" then names else names[m.name := fd])
  {
    assert (ms + [m])[..|ms|] == ms && (nums + [fd])[..|nums|] == nums;
    NamesKnown(ms, nums);
  }

  lemma ParseOneMore(all: Option<seq<Mapping>>, next: seq<Message>, n: nat, done: seq<Mapping>)
    requires ReadSoFar(all, next, n, done)
    requires n > 0 && WellFormed(next)
    ensures ReadSoFar(all, next[3..], n - 1, done + [First(next)])
  {
    match ParseMappings(next[3..], n - 1)
    case None =>
    case Some(ms) =>
      var m := First(next);
      assert done + ([m] + ms) == done + [m] + ms;
  }

  /** The next mapping cannot be read, asks for no descriptor number, or repeats a name. */
  ghost predicate Obstructed(next: seq<Message>, names: map<string, int>) {
    !WellFormed(next) || First(next).requested < -1 || First(next).name in names
  }

  /** An obstructed mapping makes the messages unusable. */
  lemma Explains(all: Option<seq<Mapping>>, next: seq<Message>, n: nat, done: seq<Mapping>, nums: seq<int>,
                 names: map<string, int>)
    requires ReadSoFar(all, next, n, done) && n > 0 && Recorded(done, nums, names) && Obstructed(next, names)
    ensures Unusable(all)
  {
    if all.Some? {
      ParseOneMore(all, next, n, done);
      var m, ms := First(next), all.value;
      assert ms[|done|] == m;
      if m.name in names {
        var i := NameOf(done, nums, m.name);
        assert ms[i] == done[i];
      }
    }
  }

  lemma {:induction false} NameOf(ms: seq<Mapping>, nums: seq<int>, name: string) returns (i: nat)
    requires |ms| == |nums| && name in Names(ms, nums)
    ensures i < |ms| && ms[i].name == name != ""
    decreases |ms|
  {
    var n := |ms| - 1;
    if ms[n].name != "" && ms[n].name == name {
      i := n;
    } else {
      i := NameOf(ms[..n], nums[..n], name);
    }
  }

  ghost function TrackedBy(comms: Ptr, preserve: seq<Ptr>): set<Ptr> {
    (set p | p in preserve) + {comms}
  }

  /** `preserve_fds_map`. */
  method MapOf(vals: map<Ptr, int>, preserve: seq<Ptr>, ghost ts: set<Ptr>, ghost owner: map<int, Ptr>)
    returns (fdMap: map<int, Ptr>)
    requires Owns(ts, vals, owner) && forall p :: p in preserve ==> p in ts
    ensures MapsPreserved((set p | p in preserve), vals, fdMap)
    ensures forall n :: n in fdMap ==> n in owner && owner[n] == fdMap[n]
  {
    fdMap := map[];
    for i := 0 to |preserve|
      invariant forall n :: n in fdMap ==> n in owner && owner[n] == fdMap[n] && fdMap[n] in preserve
      invariant forall j :: 0 <= j < i ==> vals[preserve[j]] in fdMap
    {
      var p := preserve[i];
      assert p in preserve;
      if vals[p] !in fdMap {
        fdMap := fdMap[vals[p] := p];
      }
    }
    forall p | p in preserve ensures vals[p] in fdMap && fdMap[vals[p]] == p {
      var j :| 0 <= j < |preserve| && preserve[j] == p;
      var n := vals[p];
      assert p in ts && owner[n] == p && n in fdMap && owner[n] == fdMap[n];
    }
  }
}
