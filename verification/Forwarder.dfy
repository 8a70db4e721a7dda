/**
 * The partition switch in hold mode (scripts/gauntlet-gs033/fwd.py): every link's pipes suspend at
 * their awaits, and the partition and heal signals run between suspensions.
 */
module Forwarder {

  type Byte = b: int | 0 <= b < 256
  type Bytes = seq<Byte>

  const CHUNK := 65536

  /**
   * Where a pipe is suspended. A held pipe waits on the link's event; `woken` is set by the heal that
   * sets the event, and the pipe then resumes even if the event is cleared again in between.
   */
  datatype Pc =
    | Top
    | HeldTop(woken: bool)
    | Reading
    | HeldMid(chunk: Bytes, woken: bool)
    | Draining
    | Closed

  /** One direction of a connection, with all bytes it took from its reader and gave to its writer. */
  datatype Pipe = Pipe(pc: Pc, taken: Bytes, written: Bytes)

  datatype Link = Link(a: int, b: int, cut: bool, ok: bool, bytes: nat, pipes: seq<Pipe>)

  datatype Forwarder = Forwarder(links: seq<Link>)

  datatype Event =
    | Open(link: nat)                          // a connection: two pipes
    | Resume(link: nat, pipe: nat)             // loop head, wake-up, or end of drain
    | Arrive(link: nat, pipe: nat, data: Bytes)  // reader.read returns; empty at end of stream
    | Fail(link: nat, pipe: nat)               // an exception ends the pipe
    | Partition(minority: set<int>)
    | Heal

  // ----- one pipe -----

  function Write(p: Pipe, chunk: Bytes): Pipe { Pipe(Draining, p.taken, p.written + chunk) }

  function Resumed(l: Link, p: Pipe): Pipe {
    match p.pc
    case Top => p.(pc := if l.cut && !l.ok then HeldTop(false) else Reading)
    case HeldTop(woken) => if woken then p.(pc := Reading) else p
    case HeldMid(chunk, woken) => if woken then Write(p, chunk) else p
    case Draining => p.(pc := Top)
    case _ => p
  }

  function Arrived(l: Link, p: Pipe, data: Bytes): Pipe {
    if p.pc != Reading || |data| > CHUNK then p
    else if data == [] then p.(pc := Closed)
    else
      var q := p.(taken := p.taken + data);
      if l.cut && !l.ok then q.(pc := HeldMid(data, false)) else Write(q, data)
  }

  function Woken(p: Pipe): Pipe {
    match p.pc
    case HeldTop(_) => p.(pc := HeldTop(true))
    case HeldMid(chunk, _) => p.(pc := HeldMid(chunk, true))
    case _ => p
  }

  // ----- the forwarder -----

  function WithPipe(f: Forwarder, l: nat, k: nat, p: Pipe): Forwarder
    requires l < |f.links| && k < |f.links[l].pipes|
  {
    var link := f.links[l];
    var grown := |p.written| - |link.pipes[k].written|;
    Forwarder(f.links[l := link.(pipes := link.pipes[k := p], bytes := link.bytes + (if grown > 0 then grown else 0))])
  }

  predicate Has(f: Forwarder, l: nat, k: nat) { l < |f.links| && k < |f.links[l].pipes| }

  predicate Crosses(l: Link, minority: set<int>) { (l.a in minority) != (l.b in minority) }

  function Step(f: Forwarder, e: Event): Forwarder {
    match e
    case Open(l) =>
      if l >= |f.links| then f
      else Forwarder(f.links[l := f.links[l].(pipes := f.links[l].pipes + [Pipe(Top, [], []), Pipe(Top, [], [])])])
    case Resume(l, k) => if Has(f, l, k) then WithPipe(f, l, k, Resumed(f.links[l], f.links[l].pipes[k])) else f
    case Arrive(l, k, data) =>
      if Has(f, l, k) then WithPipe(f, l, k, Arrived(f.links[l], f.links[l].pipes[k], data)) else f
    case Fail(l, k) => if Has(f, l, k) then WithPipe(f, l, k, f.links[l].pipes[k].(pc := Closed)) else f
    case Partition(minority) => Partitioned(f, minority)
    case Heal => Healed(f)
  }

  function Partitioned(f: Forwarder, minority: set<int>): Forwarder {
    Forwarder(seq(|f.links|, i requires 0 <= i < |f.links| =>
      if Crosses(f.links[i], minority) then f.links[i].(cut := true, ok := false) else f.links[i]))
  }

  function Healed(f: Forwarder): Forwarder {
    Forwarder(seq(|f.links|, i requires 0 <= i < |f.links| =>
      f.links[i].(cut := false, ok := true,
                  pipes := seq(|f.links[i].pipes|,
                               k requires 0 <= k < |f.links[i].pipes| => Woken(f.links[i].pipes[k])))))
  }

  /** The signal handlers, link by link. */
  method RunPartition(links: seq<Link>, minority: set<int>) returns (r: seq<Link>)
    ensures r == Partitioned(Forwarder(links), minority).links
    ensures |r| == |links|
    ensures forall i :: 0 <= i < |links| ==>
              r[i] == if (links[i].a in minority) != (links[i].b in minority) then links[i].(cut := true, ok := false)
                      else links[i]
  {
    r := [];
    for i := 0 to |links|
      invariant |r| == i && forall j :: 0 <= j < i ==> r[j] == Partitioned(Forwarder(links), minority).links[j]
    {
      if (links[i].a in minority) != (links[i].b in minority) {
        r := r + [links[i].(cut := true, ok := false)];
      } else {
        r := r + [links[i]];
      }
    }
  }

  function Run(f: Forwarder, events: seq<Event>): Forwarder {
    if events == [] then f else Step(Run(f, events[..|events| - 1]), events[|events| - 1])
  }

  predicate Fresh(f: Forwarder) {
    forall i :: 0 <= i < |f.links| ==>
        !f.links[i].cut && f.links[i].ok && f.links[i].pipes == [] && f.links[i].bytes == 0
  }

  // ----- no byte lost, none reordered -----

  /** Written bytes are a prefix of the bytes read, at most one chunk behind; only a held or failed pipe lags. */
  predicate PipeOk(p: Pipe) {
    && p.written <= p.taken && |p.taken| - |p.written| <= CHUNK
    && (match p.pc
        case HeldMid(chunk, _) => p.taken == p.written + chunk && 0 < |chunk| <= CHUNK
        case Closed => true
        case _ => p.taken == p.written)
  }

  function WrittenBy(pipes: seq<Pipe>): nat {
    if pipes == [] then 0 else WrittenBy(pipes[..|pipes| - 1]) + |pipes[|pipes| - 1].written|
  }

  predicate LinkOk(l: Link) {
    l.cut == !l.ok && (forall k :: 0 <= k < |l.pipes| ==> PipeOk(l.pipes[k])) && l.bytes == WrittenBy(l.pipes)
  }

  predicate Sound(f: Forwarder) { forall i :: 0 <= i < |f.links| ==> LinkOk(f.links[i]) }

  lemma ResumedOk(l: Link, p: Pipe)
    requires PipeOk(p)
    ensures PipeOk(Resumed(l, p)) && p.written <= Resumed(l, p).written
  {
  }

  lemma ArrivedOk(l: Link, p: Pipe, data: Bytes)
    requires PipeOk(p)
    ensures PipeOk(Arrived(l, p, data)) && p.written <= Arrived(l, p, data).written
  {
    if p.pc == Reading && 0 < |data| <= CHUNK {
      assert p.taken + data == p.written + data;
    }
  }

  lemma {:induction false} WrittenByUpdate(pipes: seq<Pipe>, k: nat, p: Pipe)
    requires k < |pipes|
    ensures WrittenBy(pipes[k := p]) == WrittenBy(pipes) - |pipes[k].written| + |p.written|
    decreases |pipes|
  {
    var n := |pipes| - 1;
    if k < n {
      WrittenByUpdate(pipes[..n], k, p);
      assert pipes[k := p][..n] == pipes[..n][k := p];
    } else {
      assert pipes[k := p][..n] == pipes[..n];
    }
  }

  lemma {:induction false} WrittenBySame(a: seq<Pipe>, b: seq<Pipe>)
    requires |a| == |b| && forall k :: 0 <= k < |a| ==> a[k].written == b[k].written
    ensures WrittenBy(a) == WrittenBy(b)
  {
    if a != [] { WrittenBySame(a[..|a| - 1], b[..|b| - 1]); }
  }

  lemma WithPipeOk(f: Forwarder, l: nat, k: nat, p: Pipe)
    requires Sound(f) && Has(f, l, k) && PipeOk(p) && f.links[l].pipes[k].written <= p.written
    ensures Sound(WithPipe(f, l, k, p))
  {
    hide PipeOk;
    var link := f.links[l];
    assert LinkOk(link);
    WrittenByUpdate(link.pipes, k, p);
    var g := WithPipe(f, l, k, p);
    assert LinkOk(g.links[l]);
    forall i | 0 <= i < |g.links| ensures LinkOk(g.links[i]) {
      if i != l { assert g.links[i] == f.links[i]; }
    }
  }

  lemma OpenOk(f: Forwarder, l: nat)
    requires Sound(f) && l < |f.links|
    ensures Sound(Step(f, Open(l)))
  {
    var link, fresh_ := f.links[l], Pipe(Top, [], []);
    var pipes := link.pipes + [fresh_, fresh_];
    assert LinkOk(link);
    assert pipes[..|pipes| - 1] == link.pipes + [fresh_];
    assert (link.pipes + [fresh_])[..|link.pipes|] == link.pipes;
    assert WrittenBy(pipes) == WrittenBy(link.pipes);
    var g := Step(f, Open(l));
    assert LinkOk(g.links[l]);
    forall i | 0 <= i < |g.links| ensures LinkOk(g.links[i]) {
      if i != l { assert g.links[i] == f.links[i]; }
    }
  }

  lemma HealOk(f: Forwarder)
    requires Sound(f)
    ensures Sound(Healed(f))
  {
    var g := Healed(f);
    forall i | 0 <= i < |g.links| ensures LinkOk(g.links[i]) {
      assert LinkOk(f.links[i]);
      WrittenBySame(g.links[i].pipes, f.links[i].pipes);
    }
  }

  lemma PartitionOk(f: Forwarder, minority: set<int>)
    requires Sound(f)
    ensures Sound(Partitioned(f, minority))
  {
    var g := Partitioned(f, minority);
    forall i | 0 <= i < |g.links| ensures LinkOk(g.links[i]) { assert LinkOk(f.links[i]); }
  }

  lemma StepSound(f: Forwarder, e: Event)
    requires Sound(f)
    ensures Sound(Step(f, e))
  {
    hide Sound, PipeOk, Resumed, Arrived, Partitioned, Healed, WithPipe;
    match e
    case Open(l) => if l < |f.links| { OpenOk(f, l); }
    case Resume(l, k) =>
      if Has(f, l, k) {
        SoundPipe(f, l, k);
        ResumedOk(f.links[l], f.links[l].pipes[k]);
        WithPipeOk(f, l, k, Resumed(f.links[l], f.links[l].pipes[k]));
      }
    case Arrive(l, k, data) =>
      if Has(f, l, k) {
        SoundPipe(f, l, k);
        ArrivedOk(f.links[l], f.links[l].pipes[k], data);
        WithPipeOk(f, l, k, Arrived(f.links[l], f.links[l].pipes[k], data));
      }
    case Fail(l, k) =>
      if Has(f, l, k) {
        SoundPipe(f, l, k);
        FailedOk(f.links[l].pipes[k]);
        WithPipeOk(f, l, k, f.links[l].pipes[k].(pc := Closed));
      }
    case Partition(minority) => PartitionOk(f, minority);
    case Heal => HealOk(f);
  }

  lemma SoundPipe(f: Forwarder, l: nat, k: nat)
    requires Sound(f) && Has(f, l, k)
    ensures PipeOk(f.links[l].pipes[k])
  {
    assert LinkOk(f.links[l]);
  }

  lemma FailedOk(p: Pipe)
    requires PipeOk(p)
    ensures PipeOk(p.(pc := Closed))
  {
  }

  /** Over every run of the forwarder: nothing is reordered, duplicated or lost but by a failing connection. */
  lemma {:induction false} RunSound(f: Forwarder, events: seq<Event>)
    requires Fresh(f)
    ensures Sound(Run(f, events))
    decreases |events|
  {
    if events != [] {
      hide Sound, Step;
      RunSound(f, events[..|events| - 1]);
      StepSound(Run(f, events[..|events| - 1]), events[|events| - 1]);
    }
  }

  // ----- what passes and what waits -----

  /** Nothing changed but pipe k of link l and that link's counter. */
  predicate OnlyPipe(f: Forwarder, g: Forwarder, l: nat, k: nat, p: Pipe, bytes: nat)
    requires Has(f, l, k)
  {
    g == Forwarder(f.links[l := f.links[l].(pipes := f.links[l].pipes[k := p], bytes := bytes)])
  }

  /** A connection adds two fresh pipes to its link; a failing pipe closes and keeps what it wrote. */
  lemma OpenFail(f: Forwarder, l: nat, k: nat)
    requires l < |f.links|
    ensures var p := Pipe(Top, [], []);
            Step(f, Open(l)) == Forwarder(f.links[l := f.links[l].(pipes := f.links[l].pipes + [p, p])])
    ensures Has(f, l, k) ==>
              OnlyPipe(f, Step(f, Fail(l, k)), l, k, f.links[l].pipes[k].(pc := Closed), f.links[l].bytes)
  {
  }

  /** On a link that is not cut a chunk that arrives is written, and the pipe is ready for the next. */
  lemma UncutPasses(f: Forwarder, l: nat, k: nat, data: Bytes)
    requires Has(f, l, k) && !f.links[l].cut && f.links[l].pipes[k].pc == Top && 0 < |data| <= CHUNK
    ensures var p := f.links[l].pipes[k];
            OnlyPipe(f, Step(Step(Step(Step(f, Resume(l, k)), Arrive(l, k, data)), Resume(l, k)), Resume(l, k)), l, k,
                     Pipe(Reading, p.taken + data, p.written + data), f.links[l].bytes + |data|)
  {
    var p := f.links[l].pipes[k];
    var g := Step(f, Resume(l, k));
    assert g.links[l].pipes[k] == p.(pc := Reading);
    var h := Step(g, Arrive(l, k, data));
    assert h.links[l].pipes[k] == Pipe(Draining, p.taken + data, p.written + data);
    var m := Step(h, Resume(l, k));
    assert m.links[l].pipes[k] == Pipe(Top, p.taken + data, p.written + data);
    var n := Step(m, Resume(l, k));
    assert n.links[l].pipes[k] == Pipe(Reading, p.taken + data, p.written + data);
    assert n.links[l].pipes == f.links[l].pipes[k := n.links[l].pipes[k]];
  }

  /** At the end of the stream the pipe closes and takes no more. */
  lemma EndCloses(f: Forwarder, l: nat, k: nat, data: Bytes)
    requires Has(f, l, k) && f.links[l].pipes[k].pc == Reading
    ensures var g := Step(f, Arrive(l, k, []));
            && OnlyPipe(f, g, l, k, f.links[l].pipes[k].(pc := Closed), f.links[l].bytes)
            && Step(g, Arrive(l, k, data)) == g && Step(g, Resume(l, k)) == g
  {
    var g := Step(f, Arrive(l, k, []));
    assert g.links[l].pipes[k] == f.links[l].pipes[k].(pc := Closed);
    assert g.links[l].pipes[k := g.links[l].pipes[k]] == g.links[l].pipes;
    assert g.links[l := g.links[l]] == g.links;
  }

  /** While its link is cut, a pipe at its loop head reads nothing and a chunk that arrives is held, until woken. */
  lemma CutHolds(f: Forwarder, l: nat, k: nat, data: Bytes)
    requires Has(f, l, k) && f.links[l].cut && !f.links[l].ok
    ensures var p := f.links[l].pipes[k];
            && (p.pc == Top ==> OnlyPipe(f, Step(f, Resume(l, k)), l, k, p.(pc := HeldTop(false)), f.links[l].bytes))
            && (p.pc == Reading && 0 < |data| <= CHUNK ==>
                  OnlyPipe(f, Step(f, Arrive(l, k, data)), l, k, Pipe(HeldMid(data, false), p.taken + data, p.written),
                           f.links[l].bytes))
            && ((p.pc.HeldTop? || p.pc.HeldMid?) && !p.pc.woken ==>
                  Step(f, Resume(l, k)) == f && Step(f, Arrive(l, k, data)) == f)
  {
    var p := f.links[l].pipes[k];
    assert f.links[l].pipes[k := p] == f.links[l].pipes && f.links[l := f.links[l]] == f.links;
  }

  /** A heal opens every link and releases every pipe: the chunk held is written, the loop head reads on. */
  lemma HealReleases(f: Forwarder, l: nat, k: nat)
    requires Has(f, l, k)
    ensures var p, g := f.links[l].pipes[k], Healed(f);
            && Has(g, l, k) && !g.links[l].cut && g.links[l].ok
            && var h := Step(g, Resume(l, k));
               && (p.pc.HeldMid? ==>
                     OnlyPipe(g, h, l, k, Pipe(Draining, p.taken, p.written + p.pc.chunk),
                              f.links[l].bytes + |p.pc.chunk|))
               && (p.pc.HeldTop? ==> OnlyPipe(g, h, l, k, p.(pc := Reading), f.links[l].bytes))
               && (!p.pc.HeldMid? && !p.pc.HeldTop? ==> g.links[l].pipes[k] == p)
  {
  }

  // ----- nothing crosses a cut -----

  predicate HoldsWoken(l: Link) {
    exists k :: 0 <= k < |l.pipes| && l.pipes[k].pc.HeldMid? && l.pipes[k].pc.woken
  }

  /** A cut link has no pipe on its way to write. */
  predicate Sealed(f: Forwarder) {
    forall i :: 0 <= i < |f.links| && f.links[i].cut ==> !f.links[i].ok && !HoldsWoken(f.links[i])
  }

  /** The cut finds no pipe that a heal has woken with a chunk in hand. */
  predicate CutSafe(f: Forwarder, minority: set<int>) {
    forall i :: 0 <= i < |f.links| && Crosses(f.links[i], minority) ==> !HoldsWoken(f.links[i])
  }

  predicate EventSafe(f: Forwarder, e: Event) { e.Partition? ==> CutSafe(f, e.minority) }

  predicate Quiet(l: Link, m: Link) {
    && m.bytes == l.bytes && |l.pipes| <= |m.pipes|
    && forall k :: 0 <= k < |l.pipes| ==> m.pipes[k].written == l.pipes[k].written
  }

  /** No pipe of a link that is cut gives a byte to its writer. */
  predicate Silent(f: Forwarder, g: Forwarder) {
    |g.links| == |f.links| && forall i :: 0 <= i < |f.links| && f.links[i].cut ==> Quiet(f.links[i], g.links[i])
  }

  lemma StepSealed(f: Forwarder, e: Event)
    requires Sealed(f) && EventSafe(f, e)
    ensures Sealed(Step(f, e)) && Silent(f, Step(f, e))
  {
    var g := Step(f, e);
    match e
    case Open(l) => if l < |f.links| { OpenSealed(f, l); }
    case Resume(l, k) => if Has(f, l, k) { PipeSealed(f, l, k, Resumed(f.links[l], f.links[l].pipes[k])); }
    case Arrive(l, k, data) => if Has(f, l, k) { PipeSealed(f, l, k, Arrived(f.links[l], f.links[l].pipes[k], data)); }
    case Fail(l, k) => if Has(f, l, k) { PipeSealed(f, l, k, f.links[l].pipes[k].(pc := Closed)); }
    case Partition(minority) =>
      forall i | 0 <= i < |g.links| && g.links[i].cut ensures !g.links[i].ok && !HoldsWoken(g.links[i]) {
        assert g.links[i].pipes == f.links[i].pipes;
      }
    case Heal =>
  }

  lemma OpenSealed(f: Forwarder, l: nat)
    requires Sealed(f) && l < |f.links|
    ensures Sealed(Step(f, Open(l))) && Silent(f, Step(f, Open(l)))
  {
    var g := Step(f, Open(l));
    forall i | 0 <= i < |g.links| && g.links[i].cut ensures !g.links[i].ok && !HoldsWoken(g.links[i]) {
      assert f.links[i].cut && !HoldsWoken(f.links[i]);
      forall k | 0 <= k < |g.links[i].pipes|
        ensures !(g.links[i].pipes[k].pc.HeldMid? && g.links[i].pipes[k].pc.woken)
      {
        if k < |f.links[i].pipes| { assert g.links[i].pipes[k] == f.links[i].pipes[k]; }
      }
    }
  }

  lemma PipeSealed(f: Forwarder, l: nat, k: nat, p: Pipe)
    requires Sealed(f) && Has(f, l, k)
    requires f.links[l].cut ==> p.written == f.links[l].pipes[k].written && !(p.pc.HeldMid? && p.pc.woken)
    ensures Sealed(WithPipe(f, l, k, p)) && Silent(f, WithPipe(f, l, k, p))
  {
    var g := WithPipe(f, l, k, p);
    forall i | 0 <= i < |g.links| && g.links[i].cut ensures !g.links[i].ok && !HoldsWoken(g.links[i]) {
      assert f.links[i].cut && !HoldsWoken(f.links[i]);
      forall j | 0 <= j < |g.links[i].pipes|
        ensures !(g.links[i].pipes[j].pc.HeldMid? && g.links[i].pipes[j].pc.woken)
      {
        if i != l || j != k { assert g.links[i].pipes[j] == f.links[i].pipes[j]; }
      }
    }
  }

  /** Resuming pipe k writes its chunk through link l although the link is cut. */
  predicate Leaks(g: Forwarder, l: nat, k: nat) {
    && Has(g, l, k) && g.links[l].cut && g.links[l].pipes[k].pc.HeldMid?
    && var r := Step(g, Resume(l, k));
       Has(r, l, k) && r.links[l].pipes[k].written == g.links[l].pipes[k].written + g.links[l].pipes[k].pc.chunk
  }

  /** The guard is exact: a cut lets a chunk through at the next wake-up exactly when it finds one woken. */
  lemma CutSafeExact(f: Forwarder, minority: set<int>)
    requires Sealed(f) && Sound(f)
    ensures CutSafe(f, minority) <==> forall l, k :: !Leaks(Partitioned(f, minority), l, k)
  {
    var g := Partitioned(f, minority);
    if !CutSafe(f, minority) {
      var i :| 0 <= i < |f.links| && Crosses(f.links[i], minority) && HoldsWoken(f.links[i]);
      var k :| 0 <= k < |f.links[i].pipes| && f.links[i].pipes[k].pc.HeldMid? && f.links[i].pipes[k].pc.woken;
      assert Leaks(g, i, k);
    } else {
      forall l: nat, k: nat ensures !Leaks(g, l, k) {
        if Has(g, l, k) && g.links[l].cut && g.links[l].pipes[k].pc.HeldMid? {
          assert !HoldsWoken(f.links[l]);
          assert !f.links[l].pipes[k].pc.woken;
          SoundPipe(f, l, k);
        }
      }
    }
  }

  /** The harness cuts a forwarder only before it heals it. */
  predicate CutsFirst(events: seq<Event>) {
    forall i, j :: 0 <= i < j < |events| && events[i].Heal? ==> !events[j].Partition?
  }

  predicate NoneWoken(f: Forwarder) {
    forall i :: 0 <= i < |f.links| ==> forall k :: 0 <= k < |f.links[i].pipes| ==>
      !(f.links[i].pipes[k].pc.HeldMid? && f.links[i].pipes[k].pc.woken)
  }

  lemma StepWakesNone(f: Forwarder, e: Event)
    requires NoneWoken(f) && !e.Heal?
    ensures NoneWoken(Step(f, e)) && EventSafe(f, e)
  {
  }

  predicate Healing(events: seq<Event>) { exists i :: 0 <= i < |events| && events[i].Heal? }

  /** Under the harness's order of signals every cut is safe, so no byte passes a link while it is cut. */
  lemma {:induction false} HarnessSealed(f: Forwarder, events: seq<Event>)
    requires Fresh(f) && CutsFirst(events)
    ensures Sealed(Run(f, events)) && (!Healing(events) ==> NoneWoken(Run(f, events)))
    ensures events != [] ==> Silent(Run(f, events[..|events| - 1]), Run(f, events))
    decreases |events|
  {
    if events != [] {
      var init, e := events[..|events| - 1], events[|events| - 1];
      assert CutsFirst(init);
      HarnessSealed(f, init);
      assert Healing(init) ==> !e.Partition?;
      assert !Healing(events) ==> !Healing(init) && !e.Heal? by {
        if Healing(init) {
          var i :| 0 <= i < |init| && init[i].Heal?;
          assert events[i].Heal?;
        }
        if e.Heal? { assert events[|events| - 1].Heal?; }
      }
      hide Step, Sealed, Silent, NoneWoken;
      if !Healing(init) && !e.Heal? { StepWakesNone(Run(f, init), e); }
      StepSealed(Run(f, init), e);
    }
  }
}
