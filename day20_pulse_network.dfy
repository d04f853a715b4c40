/**
 * The pulse network of 2023/day20/run.py.
 *
 * The source keeps one global dictionary of module objects and one global list of
 * pending pulses. Here both live in a `Network` object: `modules` maps a module's
 * name to its current value (its kind-specific state, its destinations and the
 * names of its upstreams) and `pulses` is the FIFO queue. A pulse names its sender
 * and receiver instead of pointing at objects; once the network is linked every
 * name it mentions resolves (`ValidState`).
 */
module PulseNetwork {
  import opened Wrappers
  import Text

  const ARROW := " -> "
  const BROADCASTER := "broadcaster"
  const BUTTON := "button"
  const RECEIVER := "rx"
  const FLIPFLOP := "%"
  const CONJUNCTION := "&"

  datatype Level = Low | High

  /** The part of a module that depends on its class, with that class's own state. */
  datatype Kind =
    | FlipFlop(on: bool)
    | Conjunction(lastReceived: map<string, Level>)
    | Broadcaster
    | Receiver(received: bool)
    | Unspecified

  datatype Module = Module(kind: Kind, destinations: seq<string>, upstreams: set<string>)

  datatype Pulse = Pulse(sender: string, level: Level, receiver: string)

  /** The two globals of the source, as one value. */
  datatype State = State(modules: map<string, Module>, pulses: seq<Pulse>)

  function NewModule(kind: Kind, destinations: seq<string>): Module {
    Module(kind, destinations, {})
  }

  function UnspecifiedModule(): Module {
    NewModule(Unspecified, [])
  }

  /**
   * `Module.parse_from` on a line already split at " -> " and ",": a `%` prefix makes a
   * FlipFlop (initially off), a `&` prefix a Conjunction (nothing received yet), both
   * named without the prefix; exactly `broadcaster` makes the Broadcaster; anything
   * else is the source's ValueError.
   */
  function ParseFrom(name: string, destinations: seq<string>): (r: Result<(string, Module)>)
    ensures r.Success? <==>
      (|name| >= 1 && name[0] in {'%', '&'}) || name == BROADCASTER
    ensures r.Success? ==>
      r.value.1.destinations == destinations && r.value.1.upstreams == {}
    ensures r.Success? && name[0] == '%' ==>
      r.value == (name[1..], NewModule(FlipFlop(false), destinations))
    ensures r.Success? && name[0] == '&' ==>
      r.value == (name[1..], NewModule(Conjunction(map[]), destinations))
    ensures r.Success? && name[0] !in {'%', '&'} ==>
      r.value == (name, NewModule(Broadcaster, destinations))
  {
    if |FLIPFLOP| <= |name| && name[..|FLIPFLOP|] == FLIPFLOP then
      Success((name[|FLIPFLOP|..], NewModule(FlipFlop(false), destinations)))
    else if |CONJUNCTION| <= |name| && name[..|CONJUNCTION|] == CONJUNCTION then
      Success((name[|CONJUNCTION|..], NewModule(Conjunction(map[]), destinations)))
    else if name == BROADCASTER then
      Success((name, NewModule(Broadcaster, destinations)))
    else
      Failure("Unknown module type: " + name)
  }

  /**
   * `s.split(" -> ")`: the pieces between the occurrences of the arrow, found left to
   * right without overlap.
   */
  function SplitArrow(s: string): (r: seq<string>)
    ensures |r| >= 1
    decreases |s|
  {
    if |s| < |ARROW| then [s]
    else if s[..|ARROW|] == ARROW then [""] + SplitArrow(s[|ARROW|..])
    else
      var rest := SplitArrow(s[1..]);
      [[s[0]] + rest[0]] + rest[1..]
  }

  /** A string without `>` holds no arrow: it is one piece. */
  lemma {:induction false} ArrowAlone(s: string)
    requires '>' !in s
    ensures SplitArrow(s) == [s]
    decreases |s|
  {
    if |s| >= |ARROW| {
      assert s[..|ARROW|][2] == s[2];
      ArrowAlone(s[1..]);
      assert [s[0]] + s[1..] == s;
    }
  }

  /** A first piece without a space splits off whole at the arrow after it. */
  lemma {:induction false} ArrowFirst(a: string, b: string)
    requires ' ' !in a
    ensures SplitArrow(a + ARROW + b) == [a] + SplitArrow(b)
    decreases |a|
  {
    var s := a + ARROW + b;
    if a == [] {
      assert s[..|ARROW|] == ARROW && s[|ARROW|..] == b;
    } else {
      assert s[..|ARROW|][0] == a[0];
      ArrowFirst(a[1..], b);
      assert s[1..] == a[1..] + ARROW + b;
      assert [a[0]] + a[1..] == a;
    }
  }

  /** `[dest.strip() for dest in ...]`. */
  function StripAll(pieces: seq<string>): (r: seq<string>)
    ensures |r| == |pieces| && forall i :: 0 <= i < |r| ==> r[i] == Text.Strip(pieces[i])
  {
    seq(|pieces|, i requires 0 <= i < |pieces| => Text.Strip(pieces[i]))
  }

  /** `[dest.strip() for dest in destinations.split(",")]`. */
  function Destinations(text: string): seq<string> {
    StripAll(Text.Split(text, ','))
  }

  /**
   * `Module.parse_from` on an input line: strip it, split it at the arrow (a ValueError
   * unless there are exactly two sides), split the right side at commas and strip each
   * destination, then classify the name as `ParseFrom` does.
   */
  function ParseLine(line: string): (r: Result<(string, Module)>)
    ensures var sides := SplitArrow(Text.Strip(line));
      r.Success? <==> |sides| == 2 && ParseFrom(sides[0], Destinations(sides[1])).Success?
  {
    var sides := SplitArrow(Text.Strip(line));
    if |sides| != 2 then Failure("ValueError: not exactly one ' -> ' in the line")
    else ParseFrom(sides[0], Destinations(sides[1]))
  }

  /** A line with no arrow at all is the unpacking ValueError. */
  lemma NoArrowFails(line: string)
    requires '>' !in line
    ensures ParseLine(line).Failure?
  {
    Text.StripInside(line, '>');
    ArrowAlone(Text.Strip(line));
  }

  /**
   * A line written as the input writes it reads back: a name without spaces and not
   * starting with whitespace, the arrow, and destinations separated by commas (each with
   * any spaces around it, the last ending in a character that is not whitespace) parses as
   * `ParseFrom` of the name and the stripped destinations.
   */
  lemma ParseLineOfFormat(name: string, pieces: seq<string>)
    requires name != "" && ' ' !in name && !Text.IsSpace(name[0])
    requires |pieces| >= 1 && forall i :: 0 <= i < |pieces| ==> ',' !in pieces[i] && '>' !in pieces[i]
    requires var last := pieces[|pieces| - 1]; last != "" && !Text.IsSpace(last[|last| - 1])
    ensures ParseLine(name + ARROW + Text.Join(pieces, ',')) == ParseFrom(name, StripAll(pieces))
  {
    var right := Text.Join(pieces, ',');
    var line := name + ARROW + right;
    FormatSides(name, pieces);
    Text.SplitJoin(pieces, ',');
    assert ParseLine(line) == ParseFrom(name, Destinations(right));
  }

  /** The stripped line splits at its one arrow into the name and the destination list. */
  lemma FormatSides(name: string, pieces: seq<string>)
    requires name != "" && ' ' !in name && !Text.IsSpace(name[0])
    requires |pieces| >= 1 && forall i :: 0 <= i < |pieces| ==> '>' !in pieces[i]
    requires var last := pieces[|pieces| - 1]; last != "" && !Text.IsSpace(last[|last| - 1])
    ensures var right := Text.Join(pieces, ',');
      SplitArrow(Text.Strip(name + ARROW + right)) == [name, right]
  {
    var right := Text.Join(pieces, ',');
    JoinEnds(pieces, ',');
    Text.JoinFree(pieces, ',', '>');
    CleanLine(name, right);
    ArrowSides(name, right);
  }

  lemma CleanLine(name: string, right: string)
    requires name != "" && !Text.IsSpace(name[0]) && right != "" && !Text.IsSpace(right[|right| - 1])
    ensures Text.Strip(name + ARROW + right) == name + ARROW + right
  {
    var line := name + ARROW + right;
    assert line[0] == name[0] && line[|line| - 1] == right[|right| - 1];
    Text.StripClean(line);
  }

  lemma ArrowSides(name: string, right: string)
    requires ' ' !in name && '>' !in right
    ensures SplitArrow(name + ARROW + right) == [name, right]
  {
    ArrowAlone(right);
    ArrowFirst(name, right);
  }

  /** The join ends with the last piece. */
  lemma {:induction false} JoinEnds(pieces: seq<string>, sep: char)
    requires |pieces| >= 1 && pieces[|pieces| - 1] != ""
    ensures var j := Text.Join(pieces, sep); j != "" && j[|j| - 1] == pieces[|pieces| - 1][|pieces[|pieces| - 1]| - 1]
    decreases |pieces|
  {
    if |pieces| > 1 {
      JoinEnds(pieces[1..], sep);
    }
  }

  /** Every recorded upstream has most recently sent High; a missing entry counts as Low. */
  predicate AllHigh(lastReceived: map<string, Level>, upstreams: set<string>) {
    forall u :: u in upstreams ==> u in lastReceived && lastReceived[u] == High
  }

  /**
   * One module receiving one pulse: its new value and the level it sends to all of
   * its destinations, if it sends at all.
   */
  function Receive(m: Module, sender: string, level: Level): (r: (Module, Option<Level>))
    ensures r.0.destinations == m.destinations && r.0.upstreams == m.upstreams
    ensures r.1.Some? <==>
      (m.kind.FlipFlop? && level == Low) || m.kind.Conjunction? || m.kind.Broadcaster?
    ensures r.0.kind.FlipFlop? == m.kind.FlipFlop? && r.0.kind.Conjunction? == m.kind.Conjunction?
    ensures r.0.kind.Receiver? == m.kind.Receiver?
    ensures m.kind.Broadcaster? || m.kind.Unspecified? ==> r.0 == m
    ensures m.kind.Receiver? ==> r.0.kind == Receiver(m.kind.received || level == Low)
  {
    match m.kind
    case FlipFlop(on) =>
      if level == Low then (m.(kind := FlipFlop(!on)), Some(if on then Low else High))
      else (m, None)
    case Conjunction(lastReceived) =>
      var updated := lastReceived[sender := level];
      (m.(kind := Conjunction(updated)), Some(if AllHigh(updated, m.upstreams) then Low else High))
    case Broadcaster =>
      (m, Some(level))
    case Receiver(received) =>
      (m.(kind := Receiver(received || level == Low)), None)
    case Unspecified =>
      (m, None)
  }

  /** The pulses `Module.send` queues: one per destination, in destination order. */
  function Fanout(sender: string, level: Level, destinations: seq<string>): (r: seq<Pulse>)
    ensures |r| == |destinations|
    ensures forall i :: 0 <= i < |r| ==> r[i] == Pulse(sender, level, destinations[i])
  {
    if destinations == [] then []
    else
      Fanout(sender, level, destinations[..|destinations| - 1]) +
      [Pulse(sender, level, destinations[|destinations| - 1])]
  }

  function Emitted(sender: string, destinations: seq<string>, out: Option<Level>): seq<Pulse> {
    if out.Some? then Fanout(sender, out.value, destinations) else []
  }

  /** Every destination of every module names a module. */
  ghost predicate Resolved(ms: map<string, Module>) {
    forall n, d :: n in ms && d in ms[n].destinations ==> d in ms
  }

  /** Every name the network mentions resolves: what the source's object references guarantee. */
  ghost predicate ValidState(s: State) {
    Resolved(s.modules) && forall p :: p in s.pulses ==> p.receiver in s.modules
  }

  /**
   * One iteration of `process_queued_pulses`: the head pulse is removed and delivered,
   * and whatever its receiver sends is appended at the tail. A pulse to a name that
   * does not resolve cannot arise in a `ValidState` (`StepKeepsValid`); it is dropped.
   */
  function Step(s: State): (r: State)
    requires s.pulses != []
    ensures r.modules.Keys == s.modules.Keys
  {
    var p := s.pulses[0];
    if p.receiver !in s.modules then State(s.modules, s.pulses[1..])
    else
      var (m, out) := Receive(s.modules[p.receiver], p.sender, p.level);
      State(s.modules[p.receiver := m], s.pulses[1..] + Emitted(p.receiver, m.destinations, out))
  }

  /** Delivering a pulse keeps every name resolving: what the receiver sends goes to its destinations. */
  lemma StepKeepsValid(s: State)
    requires ValidState(s) && s.pulses != []
    ensures ValidState(Step(s))
  {
    var p := s.pulses[0];
    var (m, out) := Receive(s.modules[p.receiver], p.sender, p.level);
    var sent := Emitted(p.receiver, m.destinations, out);
    assert forall q :: q in sent ==> q.receiver in m.destinations;
    assert Step(s).pulses == s.pulses[1..] + sent;
  }

  /** Running the network keeps every name resolving. */
  lemma {:induction false} RunKeepsValid(s: State, fuel: nat)
    requires ValidState(s)
    ensures ValidState(Run(s, fuel))
    decreases fuel
  {
    if fuel > 0 && s.pulses != [] {
      StepKeepsValid(s);
      RunKeepsValid(Step(s), fuel - 1);
    }
  }

  /**
   * One delivery touches only the receiver, keeps the rest of the queue at the head,
   * and everything it appends comes from the receiver.
   */
  lemma StepQueues(s: State)
    requires s.pulses != []
    ensures var r := Step(s);
      (forall k :: k in s.modules && k != s.pulses[0].receiver ==> r.modules[k] == s.modules[k]) &&
      |r.pulses| >= |s.pulses| - 1 && r.pulses[..|s.pulses| - 1] == s.pulses[1..] &&
      forall p :: p in r.pulses[|s.pulses| - 1..] ==> p.sender == s.pulses[0].receiver
  {
    var p := s.pulses[0];
    if p.receiver in s.modules {
      var (m, out) := Receive(s.modules[p.receiver], p.sender, p.level);
      var sent := Emitted(p.receiver, m.destinations, out);
      assert Step(s).pulses == s.pulses[1..] + sent;
      assert forall q :: q in sent ==> q.sender == p.receiver;
      assert (s.pulses[1..] + sent)[..|s.pulses| - 1] == s.pulses[1..];
      assert (s.pulses[1..] + sent)[|s.pulses| - 1..] == sent;
    }
  }

  /** At most `fuel` deliveries, stopping early when the queue is empty. */
  function Run(s: State, fuel: nat): (r: State)
    ensures r.modules.Keys == s.modules.Keys
    decreases fuel
  {
    if fuel == 0 || s.pulses == [] then s else Run(Step(s), fuel - 1)
  }

  lemma RunUnfolds(s: State, fuel: nat)
    requires fuel > 0 && s.pulses != []
    ensures Run(s, fuel) == Run(Step(s), fuel - 1)
  {
  }

  /** The pulses `Run(s, fuel)` delivers, in delivery order. */
  function Delivered(s: State, fuel: nat): seq<Pulse>
    decreases fuel
  {
    if fuel == 0 || s.pulses == [] then [] else [s.pulses[0]] + Delivered(Step(s), fuel - 1)
  }

  lemma DeliveredUnfolds(s: State, fuel: nat)
    requires fuel > 0 && s.pulses != []
    ensures Delivered(s, fuel) == [s.pulses[0]] + Delivered(Step(s), fuel - 1)
  {
  }

  /**
   * The first k deliveries are exactly the first k queued pulses, in order, and the
   * pulses still pending from the original queue remain at its head: the queue is FIFO.
   */
  lemma DeliveryIsFifo(s: State, k: nat)
    requires k <= |s.pulses|
    ensures Delivered(s, k) == s.pulses[..k]
    ensures |Run(s, k).pulses| >= |s.pulses| - k
    ensures Run(s, k).pulses[..|s.pulses| - k] == s.pulses[k..]
  {
    DeliveredInOrder(s, k);
    PendingStayAhead(s, k);
  }

  lemma {:induction false} DeliveredInOrder(s: State, k: nat)
    requires k <= |s.pulses|
    ensures Delivered(s, k) == s.pulses[..k]
    decreases k
  {
    if k > 0 {
      StepQueues(s);
      DeliveredInOrder(Step(s), k - 1);
      DeliveredUnfolds(s, k);
      HeadThenPrefix(s.pulses, Step(s).pulses, k);
    }
  }

  lemma {:induction false} PendingStayAhead(s: State, k: nat)
    requires k <= |s.pulses|
    ensures var w := Run(s, k).pulses; |w| >= |s.pulses| - k && w[..|s.pulses| - k] == s.pulses[k..]
    decreases k
  {
    if k > 0 {
      PendingStayAhead(Step(s), k - 1);
      PendingStep(s, k);
    }
  }

  /** One step of `PendingStayAhead`: what holds after the head delivery carries back to `s`. */
  lemma PendingStep(s: State, k: nat)
    requires 0 < k <= |s.pulses|
    requires var t := Step(s); var w := Run(t, k - 1).pulses;
      |w| >= |t.pulses| - (k - 1) && w[..|t.pulses| - (k - 1)] == t.pulses[k - 1..]
    ensures var w := Run(s, k).pulses; |w| >= |s.pulses| - k && w[..|s.pulses| - k] == s.pulses[k..]
  {
    StepQueues(s);
    RunUnfolds(s, k);
    ShiftedQueue(s.pulses, Step(s).pulses, Run(Step(s), k - 1).pulses, k);
  }

  /** `u` is `q` without its head, then more: its first k - 1 pulses follow `q`'s head. */
  lemma HeadThenPrefix(q: seq<Pulse>, u: seq<Pulse>, k: nat)
    requires 1 <= k <= |q| && |u| >= |q| - 1 && u[..|q| - 1] == q[1..]
    ensures [q[0]] + u[..k - 1] == q[..k]
  {
    assert u[..k - 1] == u[..|q| - 1][..k - 1];
  }

  /** `u` is `q` without its head, then more, and `w` starts with `u[k - 1..]`: so `w` starts with `q[k..]`. */
  lemma ShiftedQueue(q: seq<Pulse>, u: seq<Pulse>, w: seq<Pulse>, k: nat)
    requires 1 <= k <= |q| && |u| >= |q| - 1 && u[..|q| - 1] == q[1..]
    requires |w| >= |u| - (k - 1) && w[..|u| - (k - 1)] == u[k - 1..]
    ensures |w| >= |q| - k && w[..|q| - k] == q[k..]
  {
    assert w[..|q| - k] == w[..|u| - (k - 1)][..|q| - k];
    assert u[k - 1..][..|q| - k] == u[..|q| - 1][k - 1..];
  }

  /** A FlipFlop receiving High changes nothing and sends nothing. */
  lemma FlipFlopIgnoresHigh(s: State)
    requires s.pulses != [] && s.pulses[0].receiver in s.modules && s.pulses[0].level == High
    requires s.modules[s.pulses[0].receiver].kind.FlipFlop?
    ensures Step(s) == State(s.modules, s.pulses[1..])
  {
    assert s.modules[s.pulses[0].receiver := s.modules[s.pulses[0].receiver]] == s.modules;
  }

  /**
   * A FlipFlop receiving Low flips its state and sends High to every destination when
   * it was off, Low when it was on.
   */
  lemma FlipFlopTogglesOnLow(s: State)
    requires s.pulses != [] && s.pulses[0].receiver in s.modules && s.pulses[0].level == Low
    requires s.modules[s.pulses[0].receiver].kind.FlipFlop?
    ensures var p, m := s.pulses[0], s.modules[s.pulses[0].receiver];
      Step(s).modules[p.receiver] == m.(kind := FlipFlop(!m.kind.on)) &&
      Step(s).pulses == s.pulses[1..] +
        Fanout(p.receiver, if m.kind.on then Low else High, m.destinations)
  {
  }

  /**
   * A Conjunction records the sender's level, then sends Low iff every upstream has
   * most recently sent High, and High otherwise; it sends on every pulse.
   */
  lemma ConjunctionRemembersAndSends(s: State)
    requires s.pulses != [] && s.pulses[0].receiver in s.modules
    requires s.modules[s.pulses[0].receiver].kind.Conjunction?
    ensures var p, m := s.pulses[0], s.modules[s.pulses[0].receiver];
      var last := m.kind.lastReceived[p.sender := p.level];
      Step(s).modules[p.receiver] == m.(kind := Conjunction(last)) &&
      Step(s).pulses == s.pulses[1..] +
        Fanout(p.receiver, if AllHigh(last, m.upstreams) then Low else High, m.destinations)
  {
  }

  /** The Broadcaster passes the level it receives to every destination, unchanged. */
  lemma BroadcasterRepeats(s: State)
    requires s.pulses != [] && s.pulses[0].receiver in s.modules
    requires s.modules[s.pulses[0].receiver].kind.Broadcaster?
    ensures Step(s) == State(s.modules, s.pulses[1..] +
      Fanout(s.pulses[0].receiver, s.pulses[0].level, s.modules[s.pulses[0].receiver].destinations))
  {
    assert s.modules[s.pulses[0].receiver := s.modules[s.pulses[0].receiver]] == s.modules;
  }

  /** Sinks never send: Unspecified ignores every pulse and the Receiver only records Low. */
  lemma SinksNeverSend(s: State)
    requires s.pulses != [] && s.pulses[0].receiver in s.modules
    requires var k := s.modules[s.pulses[0].receiver].kind; k.Unspecified? || k.Receiver?
    ensures Step(s).pulses == s.pulses[1..]
    ensures var p, m := s.pulses[0], s.modules[s.pulses[0].receiver];
      m.kind.Receiver? ==>
        Step(s).modules[p.receiver].kind == Receiver(m.kind.received || p.level == Low)
  {
  }

  /** Once a Receiver has seen a Low pulse it stays received, however long the network runs. */
  lemma {:induction false} ReceivedNeverReverts(s: State, name: string, fuel: nat)
    requires name in s.modules && s.modules[name].kind == Receiver(true)
    ensures Run(s, fuel).modules[name].kind == Receiver(true)
    decreases fuel
  {
    if fuel > 0 && s.pulses != [] {
      StepKeepsReceived(s, name);
      ReceivedNeverReverts(Step(s), name, fuel - 1);
      RunUnfolds(s, fuel);
    }
  }

  lemma StepKeepsReceived(s: State, name: string)
    requires s.pulses != []
    requires name in s.modules && s.modules[name].kind == Receiver(true)
    ensures name in Step(s).modules && Step(s).modules[name].kind == Receiver(true)
  {
    var p := s.pulses[0];
    if p.receiver == name {
      assert Step(s).modules[name] == Receive(s.modules[name], p.sender, p.level).0;
    }
  }

  /** Looks a name up, standing in for the Unspecified module `link` creates for an unknown name. */
  function Lookup(ms: map<string, Module>, k: string): Module {
    if k in ms then ms[k] else UnspecifiedModule()
  }

  function DestinationSet(destinations: seq<string>): set<string> {
    set d | d in destinations
  }

  /**
   * The modules after `link` of the module `name` with these destinations: unknown
   * destinations now exist as Unspecified, and every destination lists `name` upstream.
   */
  function Linked(ms: map<string, Module>, name: string, destinations: seq<string>): map<string, Module> {
    map k | k in ms.Keys + DestinationSet(destinations) :: WithUpstream(Lookup(ms, k), name, k in destinations)
  }

  function WithUpstream(m: Module, name: string, linked: bool): Module {
    if linked then m.(upstreams := m.upstreams + {name}) else m
  }

  /** What linking makes true: every destination resolves and records the linker, nothing else changes. */
  lemma LinkedResolves(ms: map<string, Module>, name: string, destinations: seq<string>)
    ensures var r := Linked(ms, name, destinations);
      (forall d :: d in destinations ==> d in r && name in r[d].upstreams) &&
      (forall k :: k in r ==> k in ms || k in destinations) &&
      (forall k :: k in ms ==>
        (k in r && r[k].kind == ms[k].kind && r[k].destinations == ms[k].destinations)) &&
      (forall k :: k in ms && k !in destinations ==> r[k] == ms[k]) &&
      (forall d :: d in destinations && d !in ms ==> r[d] == Module(Unspecified, [], {name}))
  {
  }

  /** Names of the modules in `linkers` that have `k` as a destination. */
  function UpstreamsOf(ms: map<string, Module>, linkers: set<string>, k: string): set<string> {
    set n | n in linkers && n in ms && k in ms[n].destinations
  }

  function DestinationsOf(ms: map<string, Module>, linkers: set<string>): set<string> {
    set n, d | n in linkers && n in ms && d in ms[n].destinations :: d
  }

  /** The modules after the modules named in `linkers` have each been linked, in any order. */
  function PartlyLinked(ms: map<string, Module>, linkers: set<string>): map<string, Module> {
    map k | k in ms.Keys + DestinationsOf(ms, linkers) ::
      var m := Lookup(ms, k);
      m.(upstreams := m.upstreams + UpstreamsOf(ms, linkers, k))
  }

  /** The modules after every registered module has been linked. */
  function LinkedAll(ms: map<string, Module>): map<string, Module> {
    PartlyLinked(ms, ms.Keys)
  }

  lemma DestinationsOfOneMore(ms: map<string, Module>, linkers: set<string>, n: string)
    requires n in ms
    ensures DestinationsOf(ms, linkers + {n}) == DestinationsOf(ms, linkers) + DestinationSet(ms[n].destinations)
  {
    forall d | d in DestinationsOf(ms, linkers + {n})
      ensures d in DestinationsOf(ms, linkers) + DestinationSet(ms[n].destinations)
    {
      var m :| m in linkers + {n} && m in ms && d in ms[m].destinations;
      if m != n {
        assert d in DestinationsOf(ms, linkers);
      }
    }
  }

  lemma LinkOneMore(ms: map<string, Module>, linkers: set<string>, n: string)
    requires n in ms && n !in linkers
    ensures Linked(PartlyLinked(ms, linkers), n, ms[n].destinations) == PartlyLinked(ms, linkers + {n})
  {
    var p := PartlyLinked(ms, linkers);
    var a := Linked(p, n, ms[n].destinations);
    var b := PartlyLinked(ms, linkers + {n});
    DestinationsOfOneMore(ms, linkers, n);
    assert a.Keys == b.Keys;
    forall k | k in a ensures a[k] == b[k] {
      LinkOneMoreAt(ms, linkers, n, k);
    }
  }

  /** `LinkOneMore` at one name `k`: linking `n` adds `n` upstream of `k` exactly when `k` is one of its destinations. */
  lemma LinkOneMoreAt(ms: map<string, Module>, linkers: set<string>, n: string, k: string)
    requires n in ms && n !in linkers
    ensures var m, p := Lookup(ms, k), PartlyLinked(ms, linkers);
      WithUpstream(Lookup(p, k), n, k in ms[n].destinations) ==
        m.(upstreams := m.upstreams + UpstreamsOf(ms, linkers + {n}, k))
  {
    var extra := if k in ms[n].destinations then {n} else {};
    assert UpstreamsOf(ms, linkers + {n}, k) == UpstreamsOf(ms, linkers, k) + extra;
    var m := Lookup(ms, k);
    if k in PartlyLinked(ms, linkers) {
      assert Lookup(PartlyLinked(ms, linkers), k) == m.(upstreams := m.upstreams + UpstreamsOf(ms, linkers, k));
    } else {
      assert UpstreamsOf(ms, linkers, k) == {};
    }
  }

  /**
   * After linking every module the network is resolved, every link is recorded at its
   * destination, registered modules keep their kind and destinations, and the only
   * upstreams added are real links.
   */
  lemma LinkedAllResolves(ms: map<string, Module>)
    ensures var r := LinkedAll(ms);
      Resolved(r) &&
      (forall n, d :: n in ms && d in ms[n].destinations ==> n in r[d].upstreams) &&
      (forall k :: k in ms ==> r[k].kind == ms[k].kind && r[k].destinations == ms[k].destinations) &&
      (forall k :: k in r && k !in ms ==> r[k].kind == Unspecified && r[k].destinations == []) &&
      (forall k, u :: k in r && u in r[k].upstreams ==>
        (k in ms && u in ms[k].upstreams) || (u in ms && k in ms[u].destinations))
  {
    var r := LinkedAll(ms);
    forall n, d | n in r && d in r[n].destinations ensures d in r {
      assert n in ms;
      assert d in DestinationsOf(ms, ms.Keys);
    }
    forall n, d | n in ms && d in ms[n].destinations ensures n in r[d].upstreams {
      assert d in DestinationsOf(ms, ms.Keys);
      assert n in UpstreamsOf(ms, ms.Keys, d);
    }
  }

  /** A network in which a pulse can circulate forever: a Conjunction that is its own destination. */
  function SelfLoop(): State {
    State(
      map[BROADCASTER := Module(Broadcaster, ["a"], {BUTTON}),
          "a" := Module(Conjunction(map[]), ["a"], {BROADCASTER, "a"})],
      [Pulse(BUTTON, Low, BROADCASTER)])
  }

  ghost predicate SelfLoopShape(s: State) {
    s.modules.Keys == {BROADCASTER, "a"} &&
    s.modules[BROADCASTER].kind == Broadcaster && s.modules[BROADCASTER].destinations == ["a"] &&
    s.modules["a"].kind.Conjunction? && s.modules["a"].destinations == ["a"] &&
    |s.pulses| >= 1 && (forall p :: p in s.pulses ==> p.receiver in s.modules)
  }

  lemma SelfLoopStep(s: State)
    requires SelfLoopShape(s)
    ensures ValidState(s) && SelfLoopShape(Step(s))
  {
    assert ValidState(s);
    var p := s.pulses[0];
    var t := Step(s);
    assert |t.pulses| == |s.pulses|;
    forall q | q in t.pulses ensures q.receiver in t.modules {
    }
  }

  /**
   * Draining the queue is not guaranteed to end: after the button pulse reaches
   * `broadcaster -> a` with `&a -> a`, the queue is never empty however many pulses
   * are delivered.
   */
  lemma {:induction false} SelfLoopNeverDrains(fuel: nat)
    ensures ValidState(SelfLoop()) && Run(SelfLoop(), fuel).pulses != []
  {
    SelfLoopStep(SelfLoop());
    SelfLoopRuns(SelfLoop(), fuel);
  }

  lemma {:induction false} SelfLoopRuns(s: State, fuel: nat)
    requires SelfLoopShape(s)
    ensures ValidState(s) && Run(s, fuel).pulses != []
    decreases fuel
  {
    SelfLoopStep(s);
    if fuel > 0 {
      SelfLoopRuns(Step(s), fuel - 1);
      RunUnfolds(s, fuel);
    }
  }

  /** Every entry names a known module type. */
  predicate AllParse(entries: seq<(string, seq<string>)>) {
    forall i :: 0 <= i < |entries| ==> ParseFrom(entries[i].0, entries[i].1).Success?
  }

  /** The name an entry registers under. */
  function NameOf(e: (string, seq<string>)): string
    requires ParseFrom(e.0, e.1).Success?
  {
    ParseFrom(e.0, e.1).value.0
  }

  /** The module an entry registers. */
  function ModuleOf(e: (string, seq<string>)): Module
    requires ParseFrom(e.0, e.1).Success?
  {
    ParseFrom(e.0, e.1).value.1
  }

  /** No entry after the `i`-th registers under its name. */
  predicate LastOfName(entries: seq<(string, seq<string>)>, i: nat)
    requires AllParse(entries) && i < |entries|
  {
    forall j :: i < j < |entries| ==> NameOf(entries[j]) != NameOf(entries[i])
  }

  /** The table after registering the parsed entries in order: a later name replaces an earlier one. */
  function Entries(entries: seq<(string, seq<string>)>): map<string, Module>
    requires AllParse(entries)
  {
    if entries == [] then map[]
    else
      var e := entries[|entries| - 1];
      Entries(entries[..|entries| - 1])[NameOf(e) := ModuleOf(e)]
  }

  /** The table before linking: the parsed entries, then the `rx` Receiver in part 2. */
  function Registered(entries: seq<(string, seq<string>)>, part2: bool): map<string, Module>
    requires AllParse(entries)
  {
    if part2 then Entries(entries)[RECEIVER := NewModule(Receiver(false), [])] else Entries(entries)
  }

  /** The registered names are exactly the entries' names. */
  lemma {:induction false} EntriesKeys(entries: seq<(string, seq<string>)>)
    requires AllParse(entries)
    ensures forall k :: k in Entries(entries) <==> exists i :: 0 <= i < |entries| && NameOf(entries[i]) == k
  {
    if entries != [] {
      var n := |entries| - 1;
      var init := entries[..n];
      assert forall i :: 0 <= i < n ==> init[i] == entries[i];
      EntriesKeys(init);
      forall k ensures k in Entries(entries) <==> exists i :: 0 <= i < |entries| && NameOf(entries[i]) == k {
        if k in Entries(init) {
          var i :| 0 <= i < n && NameOf(init[i]) == k;
          assert NameOf(entries[i]) == k;
        }
        if i :| 0 <= i < |entries| && NameOf(entries[i]) == k {
          if i < n {
            assert NameOf(init[i]) == k;
          }
        }
      }
    }
  }

  /** Each registered name holds the module of the last entry of that name. */
  lemma {:induction false} EntriesValues(entries: seq<(string, seq<string>)>, i: nat)
    requires AllParse(entries) && i < |entries| && LastOfName(entries, i)
    ensures NameOf(entries[i]) in Entries(entries) && Entries(entries)[NameOf(entries[i])] == ModuleOf(entries[i])
  {
    var n := |entries| - 1;
    var init := entries[..n];
    var k := NameOf(entries[i]);
    if i < n {
      assert NameOf(entries[n]) != k;
      assert AllParse(init) && init[i] == entries[i];
      assert LastOfName(init, i) by {
        forall j | i < j < |init| ensures NameOf(init[j]) != NameOf(init[i]) {
          assert init[j] == entries[j];
        }
      }
      EntriesValues(init, i);
    }
  }

  /** The table before linking holds the entries' names and, in part 2, `rx`; each entry's module is its last. */
  lemma RegisteredTable(entries: seq<(string, seq<string>)>, part2: bool)
    requires AllParse(entries)
    ensures forall k :: k in Registered(entries, part2) <==>
      (part2 && k == RECEIVER) || exists i :: 0 <= i < |entries| && NameOf(entries[i]) == k
    ensures part2 ==> Registered(entries, part2)[RECEIVER] == Module(Receiver(false), [], {})
    ensures forall i :: 0 <= i < |entries| && LastOfName(entries, i) && !(part2 && NameOf(entries[i]) == RECEIVER) ==>
      Registered(entries, part2)[NameOf(entries[i])] == ModuleOf(entries[i])
  {
    EntriesKeys(entries);
    forall i | 0 <= i < |entries| && LastOfName(entries, i) && !(part2 && NameOf(entries[i]) == RECEIVER)
      ensures Registered(entries, part2)[NameOf(entries[i])] == ModuleOf(entries[i])
    {
      EntriesValues(entries, i);
    }
  }

  /** One iteration of the second loop of `Network.Link`: `name` is recorded upstream of one more destination. */
  lemma UpstreamAdded(ms0: map<string, Module>, name: string, ds: seq<string>, i: nat, ms: map<string, Module>)
    requires i < |ds| && ms.Keys == ms0.Keys + DestinationSet(ds)
    requires forall k :: k in ms ==> ms[k] == WithUpstream(Lookup(ms0, k), name, k in ds[..i])
    ensures var after := ms[ds[i] := ms[ds[i]].(upstreams := ms[ds[i]].upstreams + {name})];
      after.Keys == ms0.Keys + DestinationSet(ds) &&
      forall k :: k in after ==> after[k] == WithUpstream(Lookup(ms0, k), name, k in ds[..i + 1])
  {
    assert forall k :: k in ds[..i + 1] <==> k in ds[..i] || k == ds[i];
  }

  /** The source's two globals: the module table and the pulse queue. */
  class Network {
    var modules: map<string, Module>
    var pulses: seq<Pulse>

    function Current(): State
      reads this
    {
      State(modules, pulses)
    }

    constructor ()
      ensures modules == map[] && pulses == []
    {
      modules := map[];
      pulses := [];
    }

    /** `modules[module.name] = module`: a later module with the same name replaces the earlier one. */
    method Register(name: string, m: Module)
      modifies this
      ensures modules == old(modules)[name := m] && pulses == old(pulses)
    {
      modules := modules[name := m];
    }

    /** `Pulse.queue` for each destination, in order: the pulses go to the tail of the queue. */
    method Send(sender: string, destinations: seq<string>, level: Level)
      modifies this
      ensures modules == old(modules)
      ensures pulses == old(pulses) + Fanout(sender, level, destinations)
    {
      var i := 0;
      while i < |destinations|
        invariant 0 <= i <= |destinations|
        invariant modules == old(modules)
        invariant pulses == old(pulses) + Fanout(sender, level, destinations[..i])
      {
        assert destinations[..i + 1][..i] == destinations[..i];
        pulses := pulses + [Pulse(sender, level, destinations[i])];
        i := i + 1;
      }
      assert destinations[..i] == destinations;
    }

    /**
     * `Module.link` for the module `name`: first every unknown destination is created as
     * Unspecified, then every destination records `name` among its upstreams.
     */
    method Link(name: string, destinations: seq<string>)
      modifies this
      ensures modules == Linked(old(modules), name, destinations) && pulses == old(pulses)
    {
      var i := 0;
      while i < |destinations|
        invariant 0 <= i <= |destinations|
        invariant pulses == old(pulses)
        invariant modules.Keys == old(modules).Keys + DestinationSet(destinations[..i])
        invariant forall k :: k in modules ==> modules[k] == Lookup(old(modules), k)
      {
        assert DestinationSet(destinations[..i + 1]) == DestinationSet(destinations[..i]) + {destinations[i]};
        if destinations[i] !in modules {
          modules := modules[destinations[i] := UnspecifiedModule()];
        }
        i := i + 1;
      }
      assert destinations[..i] == destinations;
      i := 0;
      while i < |destinations|
        invariant 0 <= i <= |destinations|
        invariant pulses == old(pulses)
        invariant modules.Keys == old(modules).Keys + DestinationSet(destinations)
        invariant forall k :: k in modules ==>
          modules[k] == WithUpstream(Lookup(old(modules), k), name, k in destinations[..i])
      {
        var d := destinations[i];
        UpstreamAdded(old(modules), name, destinations, i, modules);
        modules := modules[d := modules[d].(upstreams := modules[d].upstreams + {name})];
        i := i + 1;
      }
      assert destinations[..i] == destinations;
    }

    /** Links every module registered so far, in whatever order the table yields them. */
    method LinkAll()
      modifies this
      ensures modules == LinkedAll(old(modules)) && pulses == old(pulses)
    {
      ghost var registered := modules;
      var todo := modules.Keys;
      ghost var done: set<string> := {};
      forall k | k in modules ensures modules[k] == PartlyLinked(registered, done)[k] {
        assert UpstreamsOf(registered, done, k) == {};
      }
      while todo != {}
        invariant todo !! done && todo + done == registered.Keys
        invariant modules == PartlyLinked(registered, done)
        invariant pulses == old(pulses)
        decreases todo
      {
        var n :| n in todo;
        assert registered[n].destinations == modules[n].destinations;
        LinkOneMore(registered, done, n);
        Link(n, modules[n].destinations);
        todo := todo - {n};
        done := done + {n};
      }
    }

    /** One iteration of the drain loop: `pulses.pop(0)`, then the receiver's `receive`. */
    method DeliverNext()
      requires ValidState(Current()) && pulses != []
      modifies this
      ensures Current() == Step(old(Current()))
    {
      ghost var before := Current();
      var p := pulses[0];
      var received := Receive(modules[p.receiver], p.sender, p.level);
      ghost var after := Step(before);
      assert after.pulses == pulses[1..] + Emitted(p.receiver, received.0.destinations, received.1);
      pulses := pulses[1..];
      modules := modules[p.receiver := received.0];
      if received.1.Some? {
        Send(p.receiver, received.0.destinations, received.1.value);
      }
    }

    /**
     * `process_queued_pulses`: delivers the head pulse until the queue is empty, giving
     * up after `fuel` deliveries. `drained` says whether the queue was emptied.
     */
    method ProcessQueuedPulses(fuel: nat) returns (drained: bool)
      requires ValidState(Current())
      modifies this
      ensures ValidState(Current())
      ensures Current() == Run(old(Current()), fuel)
      ensures drained <==> pulses == []
    {
      var steps := 0;
      while pulses != [] && steps < fuel
        invariant steps <= fuel
        invariant ValidState(Current())
        invariant Run(old(Current()), fuel) == Run(Current(), fuel - steps)
        decreases fuel - steps
      {
        ghost var before := Current();
        DeliverNext();
        StepKeepsValid(before);
        assert Run(before, fuel - steps) == Run(Current(), fuel - steps - 1);
        steps := steps + 1;
      }
      drained := pulses == [];
    }

    /** `Button.push`: one Low pulse from the button to the broadcaster, then the queue is drained. */
    method Push(fuel: nat) returns (drained: bool)
      requires ValidState(Current()) && BROADCASTER in modules
      modifies this
      ensures ValidState(Current())
      ensures Current() == Run(State(old(modules), old(pulses) + [Pulse(BUTTON, Low, BROADCASTER)]), fuel)
      ensures drained <==> pulses == []
    {
      Send(BUTTON, [BROADCASTER], Low);
      assert Fanout(BUTTON, Low, [BROADCASTER]) == [Pulse(BUTTON, Low, BROADCASTER)];
      drained := ProcessQueuedPulses(fuel);
    }

    /**
     * The driver's construction: register every parsed module (failing on the first
     * unknown type), add the `rx` Receiver in part 2, link every module, then link the
     * button to the broadcaster.
     */
    method Build(entries: seq<(string, seq<string>)>, part2: bool) returns (r: Result<()>)
      requires modules == map[] && pulses == []
      modifies this
      ensures r.Success? <==> AllParse(entries)
      ensures r.Success? ==> modules == Linked(LinkedAll(Registered(entries, part2)), BUTTON, [BROADCASTER])
      ensures r.Success? ==>
        (ValidState(Current()) && pulses == [] &&
         BROADCASTER in modules && BUTTON in modules[BROADCASTER].upstreams)
    {
      var i := 0;
      while i < |entries|
        invariant 0 <= i <= |entries|
        invariant AllParse(entries[..i])
        invariant modules == Entries(entries[..i])
        invariant pulses == old(pulses)
      {
        var parsed := ParseFrom(entries[i].0, entries[i].1);
        if parsed.Failure? {
          return Failure(parsed.error);
        }
        assert entries[..i + 1][..i] == entries[..i];
        Register(parsed.value.0, parsed.value.1);
        i := i + 1;
      }
      assert entries[..i] == entries;
      if part2 {
        Register(RECEIVER, NewModule(Receiver(false), []));
      }
      ghost var registered := modules;
      LinkAll();
      LinkedAllResolves(registered);
      ghost var linked := modules;
      Link(BUTTON, [BROADCASTER]);
      LinkedResolves(linked, BUTTON, [BROADCASTER]);
      forall n, d | n in modules && d in modules[n].destinations ensures d in modules {
        assert n in linked || n == BROADCASTER;
      }
      r := Success(());
    }
  }
}
