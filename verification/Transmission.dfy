/**
 Concurrent `SendTLV` callers, the byte stream between two processes, and a receiver, as a state
 machine: writes and reads transfer any number of bytes that the calls in progress allow.
 */
module Transmission {
  import opened Options
  import opened Wire

  /** A caller that holds the send mutex: its message and how much of it has been written. */
  datatype Sending = Sending(caller: nat, msg: Msg, sent: nat)

  /** `order`: the messages of which something may be written, in the order in which their callers
      got the mutex.
      `lost`: how much of a message was never written because its caller gave up half-way.
      `terminated`: a fatal error has ended the connection, and nothing can be written any more.
      `broken`: something was written behind a message that was left half-written. */
  datatype State = State(
    order: seq<Msg>,
    sending: Option<Sending>,
    lost: nat,
    terminated: bool,
    broken: bool,
    pipe: seq<Byte>,
    partial: seq<Byte>,
    received: seq<(nat, seq<Byte>)>)

  datatype Action =
    | Lock(caller: nat, msg: Msg)
    | Write(n: nat)
    | Unlock
    | GiveUp(fatal: bool)   // a write fails and SendTLV returns false
    | Read(n: nat)

  const INITIAL := State([], None, 0, false, false, [], [], [])

  /** The receiver has not seen a length above the limit. */
  predicate WithinLimit(partial: seq<Byte>) {
    |partial| >= HEADER ==> LengthOf(partial) <= MAX_MSG_SIZE
  }

  predicate Enabled(s: State, a: Action) {
    match a
    case Lock(_, msg) => s.sending.None? && Sendable(msg)
    case Write(n) => s.sending.Some? && !s.terminated && 1 <= n <= |Encode(s.sending.value.msg)| - s.sending.value.sent
    case Unlock => s.sending.Some? && s.sending.value.sent == |Encode(s.sending.value.msg)|
    case GiveUp(_) => s.sending.Some? && s.sending.value.sent < |Encode(s.sending.value.msg)|
    case Read(n) => 1 <= n <= |s.pipe| && n <= Wanted(s.partial) && WithinLimit(s.partial)
  }

  /** A message is delivered as soon as nothing more is wanted for it. */
  function Deliver(s: State): State {
    if Wanted(s.partial) == 0 && |s.partial| >= HEADER then
      s.(received := s.received + [MessageOf(s.partial)], partial := [])
    else s
  }

  /** Bytes move from the pipe to the receiver. */
  function Take(s: State, n: nat): State
    requires n <= |s.pipe|
  {
    s.(partial := s.partial + s.pipe[..n], pipe := s.pipe[n..])
  }

  function Apply(s: State, a: Action): State
    requires Enabled(s, a)
  {
    match a
    case Lock(caller, msg) => s.(order := s.order + [msg], sending := Some(Sending(caller, msg, 0)))
    case Write(n) =>
      var w := s.sending.value;
      s.(pipe := s.pipe + Encode(w.msg)[w.sent..w.sent + n], sending := Some(w.(sent := w.sent + n)),
         broken := s.broken || s.lost > 0)
    case Unlock => s.(sending := None)
    case GiveUp(fatal) =>
      var w := s.sending.value;
      var s' := s.(sending := None, terminated := s.terminated || fatal);
      if w.sent == 0 && s.order != [] then s'.(order := s.order[..|s.order| - 1])
      else s'.(lost := |Encode(w.msg)| - w.sent)
    case Read(n) => Deliver(Take(s, n))
  }

  /** A run: every action is enabled when it happens. */
  predicate IsRun(s: State, actions: seq<Action>)
    decreases |actions|
  {
    actions == [] || (Enabled(s, actions[0]) && IsRun(Apply(s, actions[0]), actions[1..]))
  }

  function After(s: State, actions: seq<Action>): State
    requires IsRun(s, actions)
    decreases |actions|
  {
    if actions == [] then s else After(Apply(s, actions[0]), actions[1..])
  }

  function Content(m: Msg): (nat, seq<Byte>) { (m.tag, m.value) }

  /** The receiver's messages are the first ones in mutex order. */
  ghost predicate IsPrefix(received: seq<(nat, seq<Byte>)>, order: seq<Msg>) {
    |received| <= |order| && forall i :: 0 <= i < |received| ==> received[i] == Content(order[i])
  }

  /** What is still to be written of the current message. */
  function Unwritten(s: State): int {
    if s.sending.None? then 0 else |Encode(s.sending.value.msg)| - s.sending.value.sent
  }

  /** How many messages a caller that has the mutex has not begun to write: 0 or 1. */
  function NotBegun(s: State): nat { if s.sending.Some? && s.sending.value.sent == 0 then 1 else 0 }

  /** As long as nothing is written behind a half-written message: what the receiver has of its
      current message and what is in the pipe begin the encoding of the messages it has not
      received, and lack only what has not been written. */
  ghost predicate Inv(s: State) {
    Begins(s) && (s.lost > 0 ==> LostFits(s))
  }

  ghost predicate Begins(s: State) {
    && (forall m :: m in s.order ==> Sendable(m))
    && IsPrefix(s.received, s.order)
    && (s.sending.Some? ==> s.order != [] && s.order[|s.order| - 1] == s.sending.value.msg)
    && Lacks(s.partial + s.pipe, Stream(s.order[|s.received|..]), s.lost + Unwritten(s))
    && Wanted(s.partial) > 0
  }

  /** The half-written message is the last one of which anything was written. */
  ghost predicate LostFits(s: State) {
    && (s.sending.Some? ==> s.sending.value.sent == 0)
    && |s.received| + NotBegun(s) < |s.order|
    && s.lost < |Encode(s.order[|s.order| - 1 - NotBegun(s)])|
  }

  /** `have` is all of `stream` except for its last `n` bytes. */
  predicate Lacks(have: seq<Byte>, stream: seq<Byte>, n: int) {
    0 <= n && have <= stream && |have| + n == |stream|
  }

  lemma LockKeeps(s: State, caller: nat, msg: Msg)
    requires Inv(s) && Enabled(s, Lock(caller, msg))
    ensures Inv(Apply(s, Lock(caller, msg)))
  {
    var k := |s.received|;
    assert (s.order + [msg])[k..] == s.order[k..] + [msg];
    StreamAppend(s.order[k..], msg);
  }

  /** The message being sent is encoded last. */
  lemma LastEncoded(order: seq<Msg>, k: nat)
    requires k < |order|
    ensures Stream(order[k..]) == Stream(order[k..|order| - 1]) + Encode(order[|order| - 1])
  {
    var before, last := order[k..|order| - 1], order[|order| - 1];
    assert order[k..] == before + [last];
    StreamAppend(before, last);
  }

  /** A chunk of the last message brings the receiver's side that much closer. */
  lemma ChunkAdds(partial: seq<Byte>, pipe: seq<Byte>, before: seq<Byte>, bytes: seq<Byte>, sent: nat, n: nat)
    requires sent + n <= |bytes| && Lacks(partial + pipe, before + bytes, |bytes| - sent)
    ensures Lacks(partial + (pipe + bytes[sent..sent + n]), before + bytes, |bytes| - sent - n)
  {
    var have, more := partial + pipe, bytes[sent..sent + n];
    assert (before + bytes)[|have|..|have| + n] == more;
    assert partial + (pipe + more) == have + more;
  }

  lemma WriteKeeps(s: State, n: nat)
    requires Inv(s) && Enabled(s, Write(n)) && s.lost == 0
    ensures Inv(Apply(s, Write(n)))
  {
    SomethingLeft(s.order, |s.received|);
    LastWritten(s.partial, s.pipe, s.order, |s.received|, s.sending.value.sent, n);
  }

  lemma LastWritten(partial: seq<Byte>, pipe: seq<Byte>, order: seq<Msg>, k: nat, sent: nat, n: nat)
    requires k < |order| && sent + n <= |Encode(order[|order| - 1])|
    requires Lacks(partial + pipe, Stream(order[k..]), |Encode(order[|order| - 1])| - sent)
    ensures var e := Encode(order[|order| - 1]);
            Lacks(partial + (pipe + e[sent..sent + n]), Stream(order[k..]), |e| - sent - n)
  {
    LastEncoded(order, k);
    ChunkAdds(partial, pipe, Stream(order[k..|order| - 1]), Encode(order[|order| - 1]), sent, n);
  }

  /** Bytes move from the pipe to the receiver. */
  lemma ChunkMoves(partial: seq<Byte>, pipe: seq<Byte>, n: nat, stream: seq<Byte>, lacking: int)
    requires n <= |pipe| && Lacks(partial + pipe, stream, lacking)
    ensures Lacks((partial + pipe[..n]) + pipe[n..], stream, lacking)
    ensures partial + pipe[..n] <= stream
  {
    assert (partial + pipe[..n]) + pipe[n..] == partial + pipe;
  }

  /** The first message is received in full. */
  lemma MessageLeaves(first: seq<Byte>, pipe: seq<Byte>, stream: seq<Byte>, lacking: int)
    requires Lacks(first + pipe, first + stream, lacking)
    ensures Lacks([] + pipe, stream, lacking)
  {
    assert pipe == (first + pipe)[|first|..] && stream == (first + stream)[|first|..];
    assert [] + pipe == pipe;
  }

  /** A caller that has written nothing leaves as if it had not been there. */
  lemma GiveUpUnsent(s: State, fatal: bool)
    requires Begins(s) && Enabled(s, GiveUp(fatal)) && s.sending.value.sent == 0 && |s.received| < |s.order|
    ensures Begins(Apply(s, GiveUp(fatal)))
  {
    LastDropped(s.partial + s.pipe, s.order, |s.received|, s.lost);
  }

  lemma LastDropped(have: seq<Byte>, order: seq<Msg>, k: nat, n: nat)
    requires k < |order| && Lacks(have, Stream(order[k..]), n + |Encode(order[|order| - 1])|)
    ensures Lacks(have, Stream(order[..|order| - 1][k..]), n)
  {
    LastEncoded(order, k);
    assert order[..|order| - 1][k..] == order[k..|order| - 1];
  }

  lemma GiveUpKeeps(s: State, fatal: bool)
    requires Inv(s) && Enabled(s, GiveUp(fatal)) && (s.sending.value.sent == 0 || s.lost == 0)
    ensures Inv(Apply(s, GiveUp(fatal)))
  {
    SomethingLeft(s.order, |s.received|);
    if s.sending.value.sent == 0 {
      GiveUpUnsent(s, fatal);
    } else {
      GiveUpHalf(s, fatal);
    }
  }

  /** What a caller has not written of its message is lost. */
  lemma GiveUpHalf(s: State, fatal: bool)
    requires Begins(s) && Enabled(s, GiveUp(fatal)) && s.sending.value.sent > 0
             && s.lost == 0 && |s.received| < |s.order|
    ensures Inv(Apply(s, GiveUp(fatal)))
  {
    var s' := Apply(s, GiveUp(fatal));
    assert s'.lost == Unwritten(s) && LostFits(s');
  }

  lemma SomethingLeft(order: seq<Msg>, k: nat)
    requires k <= |order|
    ensures Stream(order[k..]) != [] ==> k < |order|
  {
  }

  /** The invariant before a complete message is delivered. */
  ghost predicate Undelivered(s: State) {
    && (forall m :: m in s.order ==> Sendable(m))
    && IsPrefix(s.received, s.order) && |s.received| < |s.order|
    && (s.sending.Some? ==> s.order[|s.order| - 1] == s.sending.value.msg)
    && Lacks(s.partial + s.pipe, Stream(s.order[|s.received|..]), s.lost + Unwritten(s))
    && Wanted(s.partial) >= 0
  }

  /** The lengths of short streams. */
  lemma StreamLengths(ms: seq<Msg>)
    requires ms != []
    ensures |ms| == 1 ==> Stream(ms) == Encode(ms[0])
    ensures |ms| == 2 ==> |Stream(ms)| == |Encode(ms[0])| + |Encode(ms[1])|
    ensures |ms| > 1 ==> |Stream(ms)| >= |Encode(ms[0])| + |Encode(ms[|ms| - 1])|
  {
    assert Stream(ms) == Encode(ms[0]) + Stream(ms[1..]);
    if |ms| > 1 {
      LastEncoded(ms, 1);
      assert |ms| == 2 ==> ms[1..1] == [];
    } else {
      assert ms[1..] == [];
    }
  }

  /** A message that is received in full is not the half-written one. */
  lemma LostStays(s: State)
    requires Undelivered(s) && s.lost > 0 && LostFits(s) && s.partial == Encode(s.order[|s.received|])
    ensures |s.received| + 1 + NotBegun(s) < |s.order|
  {
    StreamLengths(s.order[|s.received|..]);
  }

  lemma DeliverKeeps(s: State)
    requires Undelivered(s)
    ensures Begins(Deliver(s))
    ensures Wanted(s.partial) == 0 ==> s.partial == Encode(s.order[|s.received|])
  {
    var k := |s.received|;
    var rest := s.order[k..];
    assert rest[0] in s.order;
    assert s.partial <= s.partial + s.pipe;
    BeginningOfStream(s.partial, rest);
    if Wanted(s.partial) == 0 {
      DecodeEncode(rest[0]);
      assert s.order[k + 1..] == rest[1..];
      MessageLeaves(s.partial, s.pipe, Stream(rest[1..]), s.lost + Unwritten(s));
    }
  }

  ghost predicate Whole(s: State) {
    Undelivered(s) && (s.lost > 0 ==> LostFits(s))
  }

  lemma DeliverKeepsAll(s: State)
    requires Whole(s)
    ensures Inv(Deliver(s))
  {
    DeliverKeeps(s);
    if s.lost > 0 && Wanted(s.partial) == 0 {
      LostStays(s);
    }
  }

  lemma TakeKeeps(s: State, n: nat)
    requires Inv(s) && Enabled(s, Read(n))
    ensures Whole(Take(s, n))
  {
    ChunkMoves(s.partial, s.pipe, n, Stream(s.order[|s.received|..]), s.lost + Unwritten(s));
    WantedLess(s.partial, s.pipe[..n]);
    SomethingLeft(s.order, |s.received|);
  }

  lemma ReadKeeps(s: State, n: nat)
    requires Inv(s) && Enabled(s, Read(n))
    ensures Inv(Apply(s, Read(n)))
  {
    TakeKeeps(s, n);
    DeliverKeepsAll(Take(s, n));
  }

  /** Reading no more than is wanted leaves a non-negative rest wanted. */
  lemma WantedLess(partial: seq<Byte>, more: seq<Byte>)
    requires |more| <= Wanted(partial)
    ensures Wanted(partial + more) >= 0
  {
    var all := partial + more;
    if |partial| >= HEADER {
      assert all[TAG_BYTES..HEADER] == partial[TAG_BYTES..HEADER];
    } else if |partial| >= TAG_BYTES && |all| == HEADER {
      assert Wanted(all) == LengthOf(all);
    }
  }

  lemma StepKeeps(s: State, a: Action)
    requires Enabled(s, a) && (s.broken || Inv(s))
    ensures Apply(s, a).broken || Inv(Apply(s, a))
  {
    if !s.broken {
      match a
      case Lock(caller, msg) => LockKeeps(s, caller, msg);
      case Write(n) => if s.lost == 0 { WriteKeeps(s, n); }
      case Unlock =>
      case GiveUp(fatal) => GiveUpKeeps(s, fatal);
      case Read(n) => ReadKeeps(s, n);
    }
  }

  lemma {:induction false} RunKeeps(s: State, actions: seq<Action>)
    requires IsRun(s, actions) && (s.broken || Inv(s))
    ensures After(s, actions).broken || Inv(After(s, actions))
    decreases |actions|
  {
    if actions != [] {
      StepKeeps(s, actions[0]);
      RunKeeps(Apply(s, actions[0]), actions[1..]);
    }
  }

  /** What the receiver has is right so far. */
  ghost predicate Right(s: State) {
    IsPrefix(s.received, s.order) && WithinLimit(s.partial)
  }

  lemma InvIsRight(s: State)
    requires Inv(s)
    ensures Right(s)
  {
    var rest := s.order[|s.received|..];
    assert s.partial <= s.partial + s.pipe;
    if rest != [] {
      assert rest[0] in s.order;
      BeginningOfStream(s.partial, rest);
    }
  }

  /** Once the mutex is free and the pipe is empty, the receiver holds all messages, except for
      what was written of one that was left half-written. */
  lemma Drained(s: State)
    requires Inv(s) && s.sending.None? && s.pipe == []
    ensures s.lost == 0 ==> |s.received| == |s.order| && s.partial == []
    ensures s.lost > 0 ==> |s.received| + 1 == |s.order| && s.lost < |Encode(s.order[|s.received|])|
    ensures s.lost > 0 ==> var e := Encode(s.order[|s.received|]); s.partial == e[..|e| - s.lost]
  {
    var k := |s.received|;
    var rest := s.order[k..];
    assert s.partial + s.pipe == s.partial;
    if rest != [] {
      assert rest[0] in s.order;
      BeginningOfStream(s.partial, rest);
      StreamLengths(rest);
    }
  }

  /** In every run in which nothing is written behind a half-written message, for every interleaving
      of callers and every split of writes and reads: the receiver holds a prefix of the messages in
      mutex order, the length it has read never exceeds the limit, and once the mutex is free and
      the pipe is empty it holds all messages, but for the last if that was left half-written. */
  lemma ReceiverSeesMutexOrder(actions: seq<Action>)
    requires IsRun(INITIAL, actions) && !After(INITIAL, actions).broken
    ensures var s := After(INITIAL, actions);
            && IsPrefix(s.received, s.order)
            && WithinLimit(s.partial)
            && (s.sending.None? && s.pipe == [] ==>
                  if s.lost == 0 then |s.received| == |s.order| && s.partial == []
                  else |s.received| + 1 == |s.order| && s.partial < Encode(s.order[|s.received|]))
  {
    assert Inv(INITIAL);
    RunKeeps(INITIAL, actions);
    var s := After(INITIAL, actions);
    InvIsRight(s);
    if s.sending.None? && s.pipe == [] {
      Drained(s);
    }
  }

  // ----- a caller that gives up half-way -----

  lemma {:induction false} AfterStep(s: State, a: Action, actions: seq<Action>)
    requires Enabled(s, a) && IsRun(Apply(s, a), actions)
    ensures IsRun(s, [a] + actions) && After(s, [a] + actions) == After(Apply(s, a), actions)
  {
    assert ([a] + actions)[1..] == actions;
  }

  lemma {:induction false} AfterAppend(s: State, a: seq<Action>, b: seq<Action>)
    requires IsRun(s, a) && IsRun(After(s, a), b)
    ensures IsRun(s, a + b) && After(s, a + b) == After(After(s, a), b)
    decreases |a|
  {
    if a == [] {
      assert a + b == b;
    } else {
      assert (a + b)[1..] == a[1..] + b;
      AfterAppend(Apply(s, a[0]), a[1..], b);
    }
  }

  ghost predicate NoGiveUp(actions: seq<Action>) {
    forall a :: a in actions ==> !a.GiveUp?
  }

  /** When no message is half-written, or the connection has ended, nothing can go wrong without
      another caller that gives up. */
  lemma {:induction false} SafeContinues(s: State, more: seq<Action>)
    requires IsRun(s, more) && Inv(s) && !s.broken && (s.lost == 0 || s.terminated) && NoGiveUp(more)
    ensures Right(After(s, more))
    decreases |more|
  {
    if more == [] {
      InvIsRight(s);
    } else {
      assert more[0] in more;
      StepKeeps(s, more[0]);
      SafeContinues(Apply(s, more[0]), more[1..]);
    }
  }

  /** Reads of one byte each. */
  function Ones(n: nat): (r: seq<Action>)
    ensures |r| == n && forall i :: 0 <= i < n ==> r[i] == Read(1)
  {
    seq(n, _ => Read(1))
  }

  /** The receiver can read on, and completes no message before byte `n`. */
  ghost predicate ReadsOn(partial: seq<Byte>, pipe: seq<Byte>, n: nat)
    requires n <= |pipe|
  {
    forall i :: 0 <= i < n ==> Wanted(partial + pipe[..i]) > 0 && WithinLimit(partial + pipe[..i])
  }

  lemma OneAhead(partial: seq<Byte>, pipe: seq<Byte>, i: nat)
    requires i < |pipe|
    ensures (partial + pipe[..1]) + pipe[1..][..i] == partial + pipe[..i + 1]
    ensures pipe[1..][i..] == pipe[i + 1..]
  {
    assert pipe[..1] + pipe[1..][..i] == pipe[..i + 1];
  }

  lemma ReadsOnLater(partial: seq<Byte>, pipe: seq<Byte>, n: nat)
    requires 1 < n <= |pipe| && ReadsOn(partial, pipe, n)
    ensures ReadsOn(partial + pipe[..1], pipe[1..], n - 1)
    ensures Wanted(partial + pipe[..1]) > 0
  {
    forall i | 0 <= i < n - 1 ensures (partial + pipe[..1]) + pipe[1..][..i] == partial + pipe[..i + 1] {
      OneAhead(partial, pipe, i);
    }
  }

  lemma {:induction false} ReadOnes(s: State, n: nat)
    requires 1 <= n <= |s.pipe| && ReadsOn(s.partial, s.pipe, n)
    ensures IsRun(s, Ones(n)) && After(s, Ones(n)) == Deliver(Take(s, n))
    decreases n
  {
    assert s.partial + s.pipe[..0] == s.partial;
    if n == 1 {
      AfterStep(s, Read(1), []);
      assert Ones(1) == [Read(1)] + [];
    } else {
      ReadsOnLater(s.partial, s.pipe, n);
      OneAhead(s.partial, s.pipe, n - 1);
      assert Take(Take(s, 1), n - 1) == Take(s, n);
      ReadOnes(Take(s, 1), n - 1);
      AfterStep(s, Read(1), Ones(n - 1));
      assert Ones(n) == [Read(1)] + Ones(n - 1);
    }
  }

  /** The receiver can take all that is in the pipe. */
  lemma {:induction false} Drain(s: State) returns (rs: seq<Action>)
    requires Inv(s)
    ensures IsRun(s, rs) && NoGiveUp(rs) && Inv(After(s, rs))
    ensures var t := After(s, rs);
            t.pipe == [] && t == s.(pipe := [], partial := t.partial, received := t.received)
    decreases |s.pipe|
  {
    if s.pipe == [] {
      rs := [];
    } else {
      InvIsRight(s);
      ReadKeeps(s, 1);
      var more := Drain(Apply(s, Read(1)));
      AfterStep(s, Read(1), more);
      rs := [Read(1)] + more;
    }
  }

  /** Reading as much as is wanted at once does what reading it byte by byte does. */
  lemma ReadAtOnce(s: State, n: nat)
    requires 1 <= n <= |s.pipe| && n <= Wanted(s.partial) && WithinLimit(s.partial)
    ensures Enabled(s, Read(n)) && IsRun(s, Ones(n)) && Apply(s, Read(n)) == After(s, Ones(n))
  {
    forall i | 0 <= i < n
      ensures Wanted(s.partial + s.pipe[..i]) > 0 && WithinLimit(s.partial + s.pipe[..i])
    {
      StillWanted(s.partial, s.pipe[..i]);
    }
    ReadOnes(s, n);
  }

  lemma StillWanted(partial: seq<Byte>, more: seq<Byte>)
    requires |more| < Wanted(partial) && WithinLimit(partial)
    ensures Wanted(partial + more) == Wanted(partial) - |more| && WithinLimit(partial + more)
  {
    var all := partial + more;
    if |partial| >= HEADER {
      assert all[TAG_BYTES..HEADER] == partial[TAG_BYTES..HEADER];
    }
  }

  /** After a fatal error nothing is written any more, whoever gets the mutex. */
  lemma {:induction false} FatalEnds(s: State, more: seq<Action>)
    requires s.terminated && IsRun(s, more)
    ensures After(s, more).terminated && forall a :: a in more ==> !a.Write?
    decreases |more|
  {
    if more != [] {
      FatalEnds(Apply(s, more[0]), more[1..]);
      assert more == [more[0]] + more[1..];
    }
  }

  lemma FatalError(s: State, more: seq<Action>)
    requires Enabled(s, GiveUp(true)) && IsRun(Apply(s, GiveUp(true)), more)
    ensures forall a :: a in more ==> !a.Write?
  {
    FatalEnds(Apply(s, GiveUp(true)), more);
  }

  // ----- every run can be finished, in any number of writes -----

  function Sum(ns: seq<nat>): nat { if ns == [] then 0 else ns[0] + Sum(ns[1..]) }

  function Writes(ns: seq<nat>): (r: seq<Action>)
    ensures |r| == |ns| && forall i :: 0 <= i < |ns| ==> r[i] == Write(ns[i])
  {
    seq(|ns|, i requires 0 <= i < |ns| => Write(ns[i]))
  }

  lemma ChunkFirst(pipe: seq<Byte>, e: seq<Byte>, from: nat, n: nat)
    requires from + n <= |e|
    ensures pipe + e[from..from + n] + e[from + n..] == pipe + e[from..]
  {
    assert e[from..] == e[from..from + n] + e[from + n..];
  }

  /** A caller can write what is left of its message in chunks of any sizes. */
  lemma {:induction false} WritesInChunks(s: State, ns: seq<nat>)
    requires s.sending.Some? && !s.terminated && Sum(ns) == Unwritten(s) && forall n :: n in ns ==> n >= 1
    ensures IsRun(s, Writes(ns))
    ensures var w := s.sending.value;
            After(s, Writes(ns)) == s.(pipe := s.pipe + Encode(w.msg)[w.sent..],
                                       sending := Some(w.(sent := |Encode(w.msg)|)),
                                       broken := s.broken || (ns != [] && s.lost > 0))
    decreases |ns|
  {
    var w := s.sending.value;
    var e := Encode(w.msg);
    if ns == [] {
      assert e[w.sent..] == [] && s.pipe + [] == s.pipe;
    } else {
      assert ns[0] in ns && forall n :: n in ns[1..] ==> n in ns;
      var s' := Apply(s, Write(ns[0]));
      WritesInChunks(s', ns[1..]);
      AfterStep(s, Write(ns[0]), Writes(ns[1..]));
      assert Writes(ns) == [Write(ns[0])] + Writes(ns[1..]);
      ChunkFirst(s.pipe, e, w.sent, ns[0]);
    }
  }

  /** Whenever the mutex is free, any caller can send any message, in chunks of any sizes. */
  lemma SendsInChunks(s: State, caller: nat, msg: Msg, ns: seq<nat>)
    requires s.sending.None? && !s.terminated && Sendable(msg)
    requires Sum(ns) == |Encode(msg)| && forall n :: n in ns ==> n >= 1
    ensures var all := [Lock(caller, msg)] + (Writes(ns) + [Unlock]);
            && IsRun(s, all)
            && After(s, all) == s.(order := s.order + [msg], pipe := s.pipe + Encode(msg),
                                   broken := s.broken || s.lost > 0)
  {
    var s1 := Apply(s, Lock(caller, msg));
    WritesInChunks(s1, ns);
    var s2 := After(s1, Writes(ns));
    AfterStep(s2, Unlock, []);
    assert [Unlock] + [] == [Unlock];
    AfterAppend(s1, Writes(ns), [Unlock]);
    AfterStep(s, Lock(caller, msg), Writes(ns) + [Unlock]);
    assert Encode(msg)[0..] == Encode(msg);
  }

  /** Every run in which the connection is up and no message was left half-written can go on so that
      the receiver gets all messages. */
  lemma CanFinish(actions: seq<Action>) returns (more: seq<Action>)
    requires IsRun(INITIAL, actions)
    requires var s := After(INITIAL, actions); !s.broken && !s.terminated && s.lost == 0
    ensures var s := After(INITIAL, actions);
            && IsRun(s, more) && NoGiveUp(more)
            && var t := After(s, more);
               && t.order == s.order && |t.received| == |t.order| && IsPrefix(t.received, t.order)
               && t.pipe == t.partial == []
  {
    var s := After(INITIAL, actions);
    assert Inv(INITIAL);
    RunKeeps(INITIAL, actions);
    var first := FinishSending(s);
    var s1 := After(s, first);
    RunKeeps(s, first);
    var rest := Drain(s1);
    AfterAppend(s, first, rest);
    Drained(After(s1, rest));
    InvIsRight(After(s1, rest));
    more := first + rest;
  }

  lemma FinishSending(s: State) returns (more: seq<Action>)
    requires Inv(s) && !s.broken && !s.terminated && s.lost == 0
    ensures IsRun(s, more) && NoGiveUp(more)
    ensures var t := After(s, more); t.sending.None? && !t.broken && t.lost == 0 && t.order == s.order
  {
    if s.sending.None? {
      more := [];
    } else {
      var ns := if Unwritten(s) == 0 then [] else [Unwritten(s)];
      assert Unwritten(s) > 0 ==> ns[1..] == [];
      WritesInChunks(s, ns);
      var t := After(s, Writes(ns));
      AfterStep(t, Unlock, []);
      assert [Unlock] + [] == [Unlock];
      AfterAppend(s, Writes(ns), [Unlock]);
      more := Writes(ns) + [Unlock];
    }
  }

  /** How a next message misleads a receiver that has `partial` of a half-written message: after
      `n` bytes of its encoding the receiver has a message that was not sent, or a length above
      the limit. */
  ghost predicate Misleads(a: Msg, partial: seq<Byte>, b: Msg, n: nat) {
    && Sendable(b) && 1 <= n <= |Encode(b)| && ReadsOn(partial, Encode(b), n)
    && var full := partial + Encode(b)[..n];
       |full| >= HEADER && (if Wanted(full) == 0 then MessageOf(full) != Content(a) else !WithinLimit(full))
  }

  function Other(b: Byte): (r: Byte)
    ensures r != b
  {
    if b == 0 then 1 else 0
  }

  /** Cut within the value: the next message fills it up with a byte that differs. */
  lemma CutInValue(a: Msg, k: nat) returns (b: Msg, n: nat)
    requires Sendable(a) && HEADER <= k < |Encode(a)|
    ensures Misleads(a, Encode(a)[..k], b, n)
  {
    var partial, j := Encode(a)[..k], k - HEADER;
    n := |a.value| - j;
    b := Msg(Other(a.value[j]), seq(n, _ => 0));
    forall i | 0 <= i <= n
      ensures Wanted(partial + Encode(b)[..i]) == n - i && LengthOf(partial + Encode(b)[..i]) == |a.value| {
      var have := partial + Encode(b)[..i];
      assert have[..HEADER] == Header(a);
      HeaderReads(a, have);
    }
    var full := partial + Encode(b)[..n];
    assert full[HEADER..][j] == Encode(b)[0] == b.tag % 0x100 != a.value[j];
  }

  lemma EmptyMessage(tag: Byte)
    ensures Encode(Msg(tag, []))[0] == tag && forall i :: 1 <= i < HEADER ==> Encode(Msg(tag, []))[i] == 0
  {
    SmallBytes(tag, TAG_BYTES);
    SmallBytes(0, LENGTH_BYTES);
  }

  /** Cut within the tag: the next message completes another tag, and an empty value. */
  lemma CutInTag(a: Msg, k: nat) returns (b: Msg, n: nat)
    requires Sendable(a) && 1 <= k < TAG_BYTES
    ensures Misleads(a, Encode(a)[..k], b, n)
  {
    var partial := Encode(a)[..k];
    n := HEADER - k;
    b := Msg(Other(Encode(a)[k]), []);
    var full := partial + Encode(b)[..n];
    EmptyMessage(b.tag);
    assert forall i :: 0 <= i < LENGTH_BYTES ==> full[TAG_BYTES..HEADER][i] == Encode(b)[TAG_BYTES - k + i];
    ZeroBytes(full[TAG_BYTES..HEADER]);
    assert full[..TAG_BYTES][k] == Encode(b)[0] != Encode(a)[k] == ToBytes(a.tag, TAG_BYTES)[k];
    FromToBytes(full[..TAG_BYTES]);
  }

  /** Cut within the length: the next message completes a length above the limit. */
  lemma CutInLength(a: Msg, k: nat) returns (b: Msg, n: nat)
    requires Sendable(a) && TAG_BYTES <= k < HEADER
    ensures Misleads(a, Encode(a)[..k], b, n)
  {
    var partial := Encode(a)[..k];
    n := HEADER - k;
    b := Msg(1, [0]);
    var full := partial + Encode(b)[..n];
    SmallBytes(1, TAG_BYTES);
    SmallBytes(1, LENGTH_BYTES);
    assert Encode(b)[0] == 1 && Encode(b)[TAG_BYTES] == 1;
    var q := if k >= 8 then k - TAG_BYTES else k;
    assert full[TAG_BYTES..HEADER][q] == 1;
    LargeBytes(full[TAG_BYTES..HEADER], q);
    CapacityGrows(4, q);
    CapacityOf4();
  }

  /** Wherever a message is cut, some next message misleads the receiver. */
  lemma EveryCutMisleads(a: Msg, k: nat) returns (b: Msg, n: nat)
    requires Sendable(a) && 1 <= k < |Encode(a)|
    ensures Misleads(a, Encode(a)[..k], b, n)
  {
    if k < TAG_BYTES {
      b, n := CutInTag(a, k);
    } else if k < HEADER {
      b, n := CutInLength(a, k);
    } else {
      b, n := CutInValue(a, k);
    }
  }

  /** A next caller writes its message, and the receiver reads `n` bytes of it. */
  lemma NextMisleads(s: State, b: Msg, n: nat)
    requires s.sending.None? && !s.terminated && s.pipe == [] && |s.received| + 1 == |s.order|
    requires Misleads(s.order[|s.received|], s.partial, b, n)
    ensures var more := [Lock(1, b), Write(|Encode(b)|)] + Ones(n);
            IsRun(s, more) && !Right(After(s, more))
  {
    var e := Encode(b);
    var s1 := Apply(s, Lock(1, b));
    var s2 := Apply(s1, Write(|e|));
    assert s2.pipe == e by { assert e[0..|e|] == e; }
    ReadOnes(s2, n);
    AfterStep(s1, Write(|e|), Ones(n));
    AfterStep(s, Lock(1, b), [Write(|e|)] + Ones(n));
    assert [Lock(1, b)] + ([Write(|e|)] + Ones(n)) == [Lock(1, b), Write(|e|)] + Ones(n);
    var k := |s.received|;
    assert s2.order[k] == s.order[k];
  }

  /** While a message is half-written and the connection is still up, one further message can
      mislead the receiver, whatever was sent, wherever it was cut, and whatever has been read. */
  lemma HalfWrittenMisleads(s: State) returns (more: seq<Action>)
    requires Inv(s) && s.lost > 0 && !s.terminated && s.sending.None?
    ensures IsRun(s, more) && NoGiveUp(more) && !Right(After(s, more))
  {
    var rs := Drain(s);
    var t := After(s, rs);
    Drained(t);
    var a := t.order[|t.received|];
    assert a in t.order;
    assert t.partial != [] by { assert t.partial + t.pipe == t.partial; }
    var b, n := EveryCutMisleads(a, |Encode(a)| - t.lost);
    NextMisleads(t, b, n);
    more := rs + ([Lock(1, b), Write(|Encode(b)|)] + Ones(n));
    AfterAppend(s, rs, [Lock(1, b), Write(|Encode(b)|)] + Ones(n));
  }

  /** After every run, with the mutex free: however callers and the receiver go on, as long as no
      further caller gives up, the receiver is right, exactly when no message was left half-written
      on a connection that is still up. */
  lemma RightExact(actions: seq<Action>)
    requires IsRun(INITIAL, actions) && !After(INITIAL, actions).broken && After(INITIAL, actions).sending.None?
    ensures var s := After(INITIAL, actions);
            (forall more | IsRun(s, more) && NoGiveUp(more) :: Right(After(s, more))) <==> s.lost == 0 || s.terminated
  {
    assert Inv(INITIAL);
    RunKeeps(INITIAL, actions);
    var s := After(INITIAL, actions);
    if s.lost == 0 || s.terminated {
      forall more | IsRun(s, more) && NoGiveUp(more) ensures Right(After(s, more)) {
        SafeContinues(s, more);
      }
    } else {
      var more := HalfWrittenMisleads(s);
    }
  }
}
