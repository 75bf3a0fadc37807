/** The asynchronous log (`common_log`): a ring of entries that producers fill, one worker empties
    and prints, and a controller pauses with an end marker and resumes.  Every step below is one
    critical section or one thread-local action; a run is any interleaving of them. */
module LogRing {
  import opened Basics

  datatype Message = Message(level: int, prefix: bool, timestamp: int, text: string)

  datatype Entry = Entry(msg: Message, isEnd: bool)

  const FRESH := Entry(Message(0, false, 0, ""), false)

  // ---------- the ring ----------

  datatype Ring = Ring(entries: seq<Entry>, head: nat, tail: nat)

  predicate ValidRing(r: Ring) { r.head < |r.entries| && r.tail < |r.entries| }

  function Contents(r: Ring): seq<Entry>
    requires ValidRing(r)
  {
    if r.head <= r.tail then r.entries[r.head..r.tail] else r.entries[r.head..] + r.entries[..r.tail]
  }

  function After(r: Ring, i: nat): nat { if i + 1 < |r.entries| then i + 1 else 0 }

  // Entries from the head around to the head again.
  function Unrolled(r: Ring): seq<Entry>
    requires ValidRing(r)
  {
    r.entries[r.head..] + r.entries[..r.head]
  }

  function Pushed(r: Ring, e: Entry): (s: Ring)
    requires ValidRing(r)
  {
    r.(entries := r.entries[r.tail := e], tail := After(r, r.tail))
  }

  // `add`: push, and double the ring when that filled it.
  function Added(r: Ring, m: Message): (s: Ring)
    requires ValidRing(r)
    ensures ValidRing(s)
  {
    var p := Pushed(r, Entry(m, false));
    var n := |p.entries|;
    if p.tail == p.head then Ring(Unrolled(p) + seq(n, _ => FRESH), 0, n) else p
  }

  // `pause`: mark the next free entry, whatever it holds; the ring is not doubled here.
  function Marked(r: Ring): (s: Ring)
    requires ValidRing(r)
    ensures ValidRing(s)
  {
    Pushed(r, r.entries[r.tail].(isEnd := true))
  }

  function Taken(r: Ring): (s: Ring)
    requires ValidRing(r)
    ensures ValidRing(s)
  {
    r.(head := After(r, r.head))
  }

  lemma {:induction false} AddedContents(r: Ring, m: Message)
    requires ValidRing(r)
    ensures Contents(Added(r, m)) == Contents(r) + [Entry(m, false)]
  {
    var e := Entry(m, false);
    var p := Pushed(r, e);
    if p.tail == p.head {
      assert Unrolled(p) == Contents(r) + [e];
    } else {
      assert Contents(p) == Contents(r) + [e];
    }
  }

  lemma {:induction false} TakenContents(r: Ring)
    requires ValidRing(r) && r.head != r.tail
    ensures Contents(r) == [r.entries[r.head]] + Contents(Taken(r))
  {
  }

  // The marker joins the queue exactly when two slots are free; with one, the whole queue vanishes.
  lemma {:induction false} MarkedContents(r: Ring)
    requires ValidRing(r)
    ensures |Contents(r)| + 2 <= |r.entries| ==> Contents(Marked(r)) == Contents(r) + [r.entries[r.tail].(isEnd := true)]
    ensures |Contents(r)| + 2 > |r.entries| ==> Contents(Marked(r)) == []
  {
  }

  lemma {:induction false} MarkerKeptIff(r: Ring)
    requires ValidRing(r)
    ensures (exists e: Entry :: e.isEnd && Contents(Marked(r)) == Contents(r) + [e])
            <==> |Contents(r)| + 2 <= |r.entries|
  {
    MarkedContents(r);
    if |Contents(r)| + 2 <= |r.entries| {
      assert Contents(Marked(r)) == Contents(r) + [r.entries[r.tail].(isEnd := true)];
    }
  }

  // ---------- the threads ----------

  datatype Worker = NoThread | Waiting | Printing(cur: Message, onConsole: bool) | Exited

  datatype Goal = JustPause | SetFile(path: Option<nat>) | SetColors(on: bool)

  datatype Controller = Idle | Joining(goal: Goal) | Stopped(goal: Goal) | Resuming

  datatype Line = Line(msg: Message, file: Option<nat>)

  // `console`, `filed` and `accepted` record what has been printed, written to a file and accepted.
  datatype Log = Log(ring: Ring, running: bool, file: Option<nat>, colors: bool,
                     worker: Worker, controller: Controller,
                     accepted: seq<Message>, console: seq<Line>, filed: seq<Line>)

  datatype Action =
    | Add(msg: Message)            // any producer
    | Take | PrintConsole | PrintFile   // the worker
    | CallPause(goal: Goal) | Join | Apply | CallResume   // the controller

  function Start(capacity: nat): Log
    requires capacity >= 1
  {
    Log(Ring(seq(capacity, _ => FRESH), 0, 0), true, None, false, Waiting, Idle, [], [], [])
  }

  predicate Enabled(l: Log, a: Action)
  {
    match a
    case Add(_) => true
    case Take => l.worker.Waiting? && l.ring.head != l.ring.tail
    case PrintConsole => l.worker.Printing? && !l.worker.onConsole
    case PrintFile => l.worker.Printing? && l.worker.onConsole
    case CallPause(_) => l.controller.Idle?
    case Join => l.controller.Joining? && l.worker.Exited?
    case Apply => l.controller.Stopped?
    case CallResume => l.controller.Idle? || l.controller.Resuming?
  }

  function AfterPause(g: Goal): Controller { if g.JustPause? then Idle else Stopped(g) }

  function Next(l: Log, a: Action): (l': Log)
    requires ValidRing(l.ring) && Enabled(l, a)
    ensures ValidRing(l'.ring)
  {
    match a
    case Add(m) =>
      if l.running then l.(ring := Added(l.ring, m), accepted := l.accepted + [m]) else l
    case Take =>
      var cur := l.ring.entries[l.ring.head];
      l.(ring := Taken(l.ring), worker := if cur.isEnd then Exited else Printing(cur.msg, false))
    case PrintConsole =>
      l.(console := l.console + [Line(l.worker.cur, l.file)], worker := Printing(l.worker.cur, true))
    case PrintFile =>
      l.(filed := if l.file.Some? then l.filed + [Line(l.worker.cur, l.file)] else l.filed, worker := Waiting)
    case CallPause(g) =>
      if l.running then l.(running := false, ring := Marked(l.ring), controller := Joining(g))
      else l.(controller := AfterPause(g))
    case Join =>
      l.(worker := NoThread, controller := AfterPause(l.controller.goal))
    case Apply =>
      var changed := l.(controller := Resuming);
      (match l.controller.goal
       case SetFile(p) => changed.(file := p)
       case SetColors(on) => changed.(colors := on)
       case JustPause => changed)
    case CallResume =>
      if l.running then l.(controller := Idle)
      else l.(running := true, worker := Waiting, controller := Idle)
  }

  // ---------- the invariant ----------

  function Messages(es: seq<Entry>): seq<Message> {
    if es == [] then []
    else (if es[0].isEnd then [] else [es[0].msg]) + Messages(es[1..])
  }

  function Texts(lines: seq<Line>): seq<Message> {
    if lines == [] then [] else [lines[0].msg] + Texts(lines[1..])
  }

  // The lines that were printed while a file was open.
  function WithFile(lines: seq<Line>): seq<Line> {
    if lines == [] then []
    else (if lines[0].file.Some? then [lines[0]] else []) + WithFile(lines[1..])
  }

  function InFlight(w: Worker): seq<Message> {
    if w.Printing? && !w.onConsole then [w.cur] else []
  }

  function Unfiled(l: Log): seq<Line> {
    if l.worker.Printing? && l.worker.onConsole && l.file.Some? then [Line(l.worker.cur, l.file)] else []
  }

  predicate NoMarker(es: seq<Entry>) { forall i :: 0 <= i < |es| ==> !es[i].isEnd }

  predicate EndsInMarker(es: seq<Entry>) {
    es != [] && es[|es| - 1].isEnd && NoMarker(es[..|es| - 1])
  }

  // Nothing is lost, duplicated or reordered, on the console or in the files.
  predicate Conserved(l: Log)
    requires ValidRing(l.ring)
  {
    l.accepted == Texts(l.console) + InFlight(l.worker) + Messages(Contents(l.ring))
    && WithFile(l.console) == l.filed + Unfiled(l)
  }

  predicate Consistent(l: Log)
    requires ValidRing(l.ring)
  {
    var q := Contents(l.ring);
    if l.running then
      (l.worker.Waiting? || l.worker.Printing?) && l.controller.Idle? && NoMarker(q)
    else if l.controller.Joining? then
      ((l.worker.Waiting? || l.worker.Printing?) && EndsInMarker(q)) || (l.worker.Exited? && q == [])
    else
      l.worker.NoThread? && q == []
  }

  predicate Inv(l: Log) { ValidRing(l.ring) && Conserved(l) && Consistent(l) }

  // The marker of a pause that takes effect finds two free slots.
  predicate Roomy(l: Log, a: Action)
    requires ValidRing(l.ring)
  {
    a.CallPause? && l.running ==> |Contents(l.ring)| + 2 <= |l.ring.entries|
  }

  lemma {:induction false} MessagesConcat(a: seq<Entry>, b: seq<Entry>)
    ensures Messages(a + b) == Messages(a) + Messages(b)
  {
    if a == [] { assert a + b == b; } else {
      assert (a + b)[1..] == a[1..] + b;
      MessagesConcat(a[1..], b);
    }
  }

  lemma {:induction false} LinesSnoc(lines: seq<Line>, x: Line)
    ensures Texts(lines + [x]) == Texts(lines) + [x.msg]
    ensures WithFile(lines + [x]) == WithFile(lines) + (if x.file.Some? then [x] else [])
  {
    if lines == [] {
      assert [x][1..] == [];
    } else {
      assert (lines + [x])[1..] == lines[1..] + [x];
      LinesSnoc(lines[1..], x);
    }
  }

  lemma {:induction false} MessageOne(e: Entry)
    ensures Messages([e]) == if e.isEnd then [] else [e.msg]
  {
    assert [e][1..] == [];
  }

  lemma {:induction false} StartInv(capacity: nat)
    requires capacity >= 1
    ensures Inv(Start(capacity))
  {
  }

  lemma {:induction false} AddKeeps(l: Log, m: Message)
    requires Inv(l)
    ensures Inv(Next(l, Add(m)))
  {
    if l.running {
      AddedContents(l.ring, m);
      MessagesConcat(Contents(l.ring), [Entry(m, false)]);
      MessageOne(Entry(m, false));
    }
  }

  lemma {:induction false} MarkerLast(q: seq<Entry>)
    requires EndsInMarker(q)
    ensures q[0].isEnd ==> |q| == 1
    ensures |q| > 1 ==> EndsInMarker(q[1..])
  {
    if |q| > 1 {
      assert q[..|q| - 1][0] == q[0];
      assert q[1..][..|q| - 2] == q[..|q| - 1][1..];
    }
  }

  lemma {:induction false} MessagesHead(e: Entry, rest: seq<Entry>)
    ensures Messages([e] + rest) == (if e.isEnd then [] else [e.msg]) + Messages(rest)
  {
    assert ([e] + rest)[1..] == rest;
  }

  lemma {:induction false} TakeConserves(l: Log)
    requires Inv(l) && Enabled(l, Take)
    ensures Conserved(Next(l, Take))
  {
    hide Contents, Texts, WithFile, Messages, Taken;
    var cur, rest := l.ring.entries[l.ring.head], Contents(Taken(l.ring));
    TakenContents(l.ring);
    MessagesHead(cur, rest);
    var l' := Next(l, Take);
    var printed, m := Texts(l.console), Messages(rest);
    assert l'.accepted == printed + [] + (InFlight(l'.worker) + m);
    assert printed + [] + (InFlight(l'.worker) + m) == printed + InFlight(l'.worker) + m;
  }

  lemma {:induction false} TakeKeeps(l: Log)
    requires Inv(l) && Enabled(l, Take)
    ensures Inv(Next(l, Take))
  {
    TakeConserves(l);
    TakenContents(l.ring);
    var q, rest := Contents(l.ring), Contents(Taken(l.ring));
    assert q[0] == l.ring.entries[l.ring.head] && q[1..] == rest;
    if EndsInMarker(q) { MarkerLast(q); }
    assert NoMarker(q) ==> NoMarker(rest);
  }

  lemma {:induction false} PrintKeeps(l: Log, a: Action)
    requires Inv(l) && (a == PrintConsole || a == PrintFile) && Enabled(l, a)
    ensures Inv(Next(l, a))
  {
    LinesSnoc(l.console, Line(l.worker.cur, l.file));
  }

  lemma {:induction false} PauseKeeps(l: Log, g: Goal)
    requires Inv(l) && Enabled(l, CallPause(g)) && Roomy(l, CallPause(g))
    ensures Inv(Next(l, CallPause(g)))
  {
    if l.running {
      var marker := l.ring.entries[l.ring.tail].(isEnd := true);
      MarkedContents(l.ring);
      MessagesConcat(Contents(l.ring), [marker]);
      MessageOne(marker);
      assert (Contents(l.ring) + [marker])[..|Contents(l.ring)|] == Contents(l.ring);
    }
  }

  lemma {:induction false} ControlKeeps(l: Log, a: Action)
    requires Inv(l) && (a == Join || a == Apply || a == CallResume) && Enabled(l, a)
    ensures Inv(Next(l, a))
  {
    assert NoMarker([]);
    if a == Join { MessageNone(); }
  }

  lemma {:induction false} MessageNone()
    ensures Messages([]) == []
  {
  }

  lemma {:induction false} StepKeepsInv(l: Log, a: Action)
    requires Inv(l) && Enabled(l, a) && Roomy(l, a)
    ensures Inv(Next(l, a))
  {
    hide Inv, Next;
    match a
    case Add(m) => AddKeeps(l, m);
    case Take => TakeKeeps(l);
    case PrintConsole => PrintKeeps(l, a);
    case PrintFile => PrintKeeps(l, a);
    case CallPause(g) => PauseKeeps(l, g);
    case Join => ControlKeeps(l, a);
    case Apply => ControlKeeps(l, a);
    case CallResume => ControlKeeps(l, a);
  }

  // ---------- over whole runs ----------

  ghost predicate IsRun(l: Log, acts: seq<Action>)
    decreases |acts|
  {
    acts == []
    || (ValidRing(l.ring) && Enabled(l, acts[0]) && Roomy(l, acts[0]) && IsRun(Next(l, acts[0]), acts[1..]))
  }

  ghost function Final(l: Log, acts: seq<Action>): Log
    requires IsRun(l, acts)
    decreases |acts|
  {
    if acts == [] then l else Final(Next(l, acts[0]), acts[1..])
  }

  ghost function Sent(l: Log, acts: seq<Action>): seq<Message>
    requires IsRun(l, acts)
    decreases |acts|
  {
    if acts == [] then []
    else (if acts[0].Add? && l.running then [acts[0].msg] else []) + Sent(Next(l, acts[0]), acts[1..])
  }

  lemma {:induction false} StepSends(l: Log, a: Action)
    requires ValidRing(l.ring) && Enabled(l, a)
    ensures Next(l, a).accepted == l.accepted + (if a.Add? && l.running then [a.msg] else [])
  {
  }

  lemma {:induction false} RunKeepsInv(l: Log, acts: seq<Action>)
    requires Inv(l) && IsRun(l, acts)
    ensures Inv(Final(l, acts)) && Final(l, acts).accepted == l.accepted + Sent(l, acts)
    decreases |acts|
  {
    hide Inv, Next, Enabled, Roomy;
    if acts != [] {
      StepKeepsInv(l, acts[0]);
      StepSends(l, acts[0]);
      RunKeepsInv(Next(l, acts[0]), acts[1..]);
    }
  }

  // Main result: after any run, what was sent while running is what has been printed, then the
  // message being printed, then the ring, in order and each once.
  lemma {:induction false} NothingLost(capacity: nat, acts: seq<Action>)
    requires capacity >= 1 && IsRun(Start(capacity), acts)
    ensures var l := Final(Start(capacity), acts);
            ValidRing(l.ring)
            && Sent(Start(capacity), acts) == Texts(l.console) + InFlight(l.worker) + Messages(Contents(l.ring))
            && WithFile(l.console) == l.filed + Unfiled(l)
  {
    StartInv(capacity);
    RunKeepsInv(Start(capacity), acts);
  }

  // When pause returns, everything sent is on the console and in the open file.
  lemma {:induction false} PauseDrains(l: Log)
    requires Inv(l) && Enabled(l, Join)
    ensures var l' := Next(l, Join);
            Contents(l'.ring) == [] && l'.accepted == Texts(l'.console) && WithFile(l'.console) == l'.filed
            && !l'.running && l'.worker.NoThread?
  {
    assert Messages([]) == [];
  }

  // ---------- what the calls asked for ----------

  // The goal of the last pause that was called.
  function Asked(acts: seq<Action>): Option<Goal> {
    if acts == [] then None
    else
      var a := acts[|acts| - 1];
      if a.CallPause? then Some(a.goal) else Asked(acts[..|acts| - 1])
  }

  // The file of the last `set_file` that got as far as changing it.
  function FileAsked(acts: seq<Action>): Option<nat> {
    if acts == [] then None
    else
      var before := acts[..|acts| - 1];
      if acts[|acts| - 1].Apply? && Asked(before).Some? && Asked(before).value.SetFile? then Asked(before).value.path
      else FileAsked(before)
  }

  function ColorsAsked(acts: seq<Action>): bool {
    if acts == [] then false
    else
      var before := acts[..|acts| - 1];
      if acts[|acts| - 1].Apply? && Asked(before).Some? && Asked(before).value.SetColors? then Asked(before).value.on
      else ColorsAsked(before)
  }

  // For each line printed, the file asked for by then.
  function FilesAtPrints(acts: seq<Action>): seq<Option<nat>> {
    if acts == [] then []
    else
      var before := acts[..|acts| - 1];
      FilesAtPrints(before) + (if acts[|acts| - 1].PrintConsole? then [FileAsked(before)] else [])
  }

  function Files(lines: seq<Line>): (fs: seq<Option<nat>>) { seq(|lines|, i requires 0 <= i < |lines| => lines[i].file) }

  // The controller works on what was asked last.
  ghost predicate Obeys(l: Log, acts: seq<Action>) {
    && l.file == FileAsked(acts) && l.colors == ColorsAsked(acts) && Files(l.console) == FilesAtPrints(acts)
    && (l.controller.Joining? || l.controller.Stopped? ==> Asked(acts) == Some(l.controller.goal))
    && (l.controller.Stopped? ==> !l.controller.goal.JustPause?)
  }

  lemma {:induction false} StepObeys(l: Log, acts: seq<Action>, a: Action)
    requires ValidRing(l.ring) && Enabled(l, a) && Obeys(l, acts)
    ensures Obeys(Next(l, a), acts + [a])
  {
    hide Added, Marked, Taken;
    assert (acts + [a])[..|acts|] == acts && (acts + [a])[|acts|] == a;
  }

  lemma {:induction false} RunSnoc(l: Log, acts: seq<Action>, a: Action)
    requires IsRun(l, acts + [a])
    ensures IsRun(l, acts) && ValidRing(Final(l, acts).ring) && Enabled(Final(l, acts), a)
    ensures Final(l, acts + [a]) == Next(Final(l, acts), a)
    decreases |acts|
  {
    hide Next, Enabled, Roomy;
    if acts == [] {
      assert [] + [a] == [a] && [a][1..] == [];
    } else {
      assert (acts + [a])[0] == acts[0] && (acts + [a])[1..] == acts[1..] + [a];
      RunSnoc(Next(l, acts[0]), acts[1..], a);
    }
  }

  // Main result: after any run the file and the colours are those of the last completed request, and each
  // line was printed with the file asked for by then.
  lemma {:induction false} RequestsObeyed(capacity: nat, acts: seq<Action>)
    requires capacity >= 1 && IsRun(Start(capacity), acts)
    ensures var l := Final(Start(capacity), acts);
            && l.file == FileAsked(acts) && l.colors == ColorsAsked(acts) && Files(l.console) == FilesAtPrints(acts)
  {
    RunObeys(capacity, acts);
  }

  lemma {:induction false} RunObeys(capacity: nat, acts: seq<Action>)
    requires capacity >= 1 && IsRun(Start(capacity), acts)
    ensures Obeys(Final(Start(capacity), acts), acts)
    decreases |acts|
  {
    if acts != [] {
      var before, a := acts[..|acts| - 1], acts[|acts| - 1];
      assert acts == before + [a];
      RunSnoc(Start(capacity), before, a);
      RunObeys(capacity, before);
      hide Obeys, Next, Enabled, IsRun, Final, Start;
      StepObeys(Final(Start(capacity), before), before, a);
    }
  }

  predicate NoRequest(acts: seq<Action>) { forall i :: 0 <= i < |acts| ==> !acts[i].CallPause? && !acts[i].Apply? }

  lemma {:induction false} AskedAfter(acts: seq<Action>, more: seq<Action>)
    requires NoRequest(more)
    ensures Asked(acts + more) == Asked(acts) && FileAsked(acts + more) == FileAsked(acts) && ColorsAsked(acts + more) == ColorsAsked(acts)
    decreases |more|
  {
    if more == [] {
      assert acts + more == acts;
    } else {
      var less := more[..|more| - 1];
      assert (acts + more)[..|acts + more| - 1] == acts + less;
      AskedAfter(acts, less);
    }
  }

  // From the call of `set_file` or `set_colors` to behind its return: the one is as asked, the other as before.
  lemma {:induction false} RequestSets(capacity: nat, before: seq<Action>, goal: Goal, during: seq<Action>, after: seq<Action>)
    requires capacity >= 1 && NoRequest(during) && NoRequest(after)
    requires IsRun(Start(capacity), before) && IsRun(Start(capacity), before + [CallPause(goal)] + during + [Apply] + after)
    ensures var l, m := Final(Start(capacity), before), Final(Start(capacity), before + [CallPause(goal)] + during + [Apply] + after);
            && m.file == (if goal.SetFile? then goal.path else l.file)
            && m.colors == (if goal.SetColors? then goal.on else l.colors)
  {
    var called := before + [CallPause(goal)];
    var applied := called + during + [Apply];
    RequestsObeyed(capacity, before);
    RequestsObeyed(capacity, applied + after);
    assert called[..|before|] == before && (called + during + [Apply])[..|called + during|] == called + during;
    hide IsRun, Final;
    AskedAfter(called, during);
    AskedAfter(applied, after);
  }

  // The file and the colours change only while no worker exists and the ring is empty.
  lemma {:induction false} ChangesOnlyWhenStopped(l: Log, a: Action)
    requires Inv(l) && Enabled(l, a)
    requires Next(l, a).file != l.file || Next(l, a).colors != l.colors
    ensures a.Apply? && l.worker.NoThread? && !l.running && Contents(l.ring) == []
    ensures Next(l, a).worker.NoThread?
  {
  }

  // While the controller waits in pause, the worker can always move on, and each of its steps
  // brings the end nearer: pause returns.
  function Remaining(l: Log): nat
    requires ValidRing(l.ring)
  {
    3 * |Contents(l.ring)| + (if l.worker.Printing? then (if l.worker.onConsole then 1 else 2) else 0)
  }

  lemma {:induction false} PauseProgresses(l: Log)
    requires Inv(l) && l.controller.Joining? && !l.running
    ensures Enabled(l, Join) || Enabled(l, Take) || Enabled(l, PrintConsole) || Enabled(l, PrintFile)
    ensures forall a :: (a == Take || a == PrintConsole || a == PrintFile) && Enabled(l, a)
                        ==> Remaining(Next(l, a)) < Remaining(l)
  {
    if Enabled(l, Take) { TakenContents(l.ring); }
    if l.ring.head == l.ring.tail { assert Contents(l.ring) == []; }
  }

  // ---------- the full ring ----------

  // A pause that waits for a worker who has no marker left to find.
  ghost predicate StuckPause(l: Log) {
    && ValidRing(l.ring) && l.ring.head == l.ring.tail
    && !l.running && l.controller.Joining? && (l.worker.Waiting? || l.worker.Printing?)
  }

  lemma {:induction false} EmptyRing(r: Ring)
    requires ValidRing(r)
    ensures Contents(r) == [] <==> r.head == r.tail
  {
  }

  // With a single free slot the marker makes the ring look empty: whatever was queued is gone and the
  // pause is stuck; once the worker waits, only discarded messages can follow.
  lemma {:induction false} FullRingDeadlocks(l: Log, g: Goal)
    requires Inv(l) && l.running && |Contents(l.ring)| + 1 == |l.ring.entries|
    ensures var l' := Next(l, CallPause(g));
            && Contents(l'.ring) == [] && l'.accepted == Texts(l.console) + InFlight(l.worker) + Messages(Contents(l.ring))
            && StuckPause(l')
            && (l.worker.Waiting? ==> forall a :: Enabled(l', a) ==> a.Add? && Next(l', a) == l')
  {
    MarkedContents(l.ring);
    var l' := Next(l, CallPause(g));
    assert l' == l.(running := false, ring := Marked(l.ring), controller := Joining(g));
    assert l'.ring.head == l'.ring.tail by { EmptyRing(l'.ring); }
    if l.worker.Waiting? {
      forall a | Enabled(l', a) ensures a.Add? && Next(l', a) == l' { }
    }
  }

  lemma {:induction false} StuckStays(l: Log, acts: seq<Action>)
    requires StuckPause(l) && IsRun(l, acts)
    ensures StuckPause(Final(l, acts))
    decreases |acts|
  {
    hide Added, Marked, Taken;
    if acts != [] { StuckStays(Next(l, acts[0]), acts[1..]); }
  }

  // Some run leads to the join.
  ghost predicate CanReturn(l: Log) { exists acts :: Returns(l, acts) }

  ghost predicate Returns(l: Log, acts: seq<Action>) { IsRun(l, acts) && Enabled(Final(l, acts), Join) }

  lemma {:induction false} ReturnsAfter(l: Log, a: Action)
    requires ValidRing(l.ring) && Enabled(l, a) && Roomy(l, a) && CanReturn(Next(l, a))
    ensures CanReturn(l)
  {
    hide Enabled, Roomy, Next;
    var acts :| Returns(Next(l, a), acts);
    assert ([a] + acts)[1..] == acts;
    assert Returns(l, [a] + acts);
  }

  lemma {:induction false} WaitingReturns(l: Log)
    requires Inv(l) && l.controller.Joining? && !l.running
    ensures CanReturn(l)
    decreases Remaining(l)
  {
    PauseProgresses(l);
    if Enabled(l, Join) {
      assert Returns(l, []);
    } else {
      var a := if Enabled(l, Take) then Take else if Enabled(l, PrintConsole) then PrintConsole else PrintFile;
      StepKeepsInv(l, a);
      assert Next(l, a).controller == l.controller && Next(l, a).running == l.running;
      hide Inv, Next, Remaining, CanReturn, Contents;
      WaitingReturns(Next(l, a));
      ReturnsAfter(l, a);
    }
  }

  // Without another request the log comes to run again, with this file and these colours.
  ghost predicate CanFinish(l: Log, file: Option<nat>, colors: bool) { exists acts :: FinishesBy(l, acts, file, colors) }

  ghost predicate FinishesBy(l: Log, acts: seq<Action>, file: Option<nat>, colors: bool) {
    && IsRun(l, acts) && (forall i :: 0 <= i < |acts| ==> !acts[i].CallPause?)
    && var e := Final(l, acts); e.running && e.controller.Idle? && e.file == file && e.colors == colors
  }

  lemma {:induction false} FinishesAfter(l: Log, a: Action, file: Option<nat>, colors: bool)
    requires ValidRing(l.ring) && Enabled(l, a) && !a.CallPause? && CanFinish(Next(l, a), file, colors)
    ensures CanFinish(l, file, colors)
  {
    hide Enabled, Next;
    var acts :| FinishesBy(Next(l, a), acts, file, colors);
    assert ([a] + acts)[1..] == acts;
    assert FinishesBy(l, [a] + acts, file, colors);
  }

  function FileAfter(l: Log, g: Goal): Option<nat> { if g.SetFile? then g.path else l.file }

  function ColorsAfter(l: Log, g: Goal): bool { if g.SetColors? then g.on else l.colors }

  lemma {:induction false} StoppedFinishes(l: Log)
    requires ValidRing(l.ring) && l.controller.Stopped? && !l.running
    ensures CanFinish(l, FileAfter(l, l.controller.goal), ColorsAfter(l, l.controller.goal))
  {
    var g := l.controller.goal;
    var m := Next(l, Apply);
    var e := Next(m, CallResume);
    assert FinishesBy(e, [], FileAfter(l, g), ColorsAfter(l, g));
    FinishesAfter(m, CallResume, FileAfter(l, g), ColorsAfter(l, g));
    FinishesAfter(l, Apply, FileAfter(l, g), ColorsAfter(l, g));
  }

  // What brings a waiting pause nearer to its end.
  lemma {:induction false} NearerStep(l: Log) returns (a: Action)
    requires Inv(l) && l.controller.Joining? && !l.running
    ensures Enabled(l, a) && (a == Join || a == Take || a == PrintConsole || a == PrintFile)
    ensures a != Join ==> Remaining(Next(l, a)) < Remaining(l)
  {
    PauseProgresses(l);
    a := if Enabled(l, Join) then Join else if Enabled(l, Take) then Take else if Enabled(l, PrintConsole) then PrintConsole else PrintFile;
  }

  lemma {:induction false} NearerKeeps(l: Log, a: Action)
    requires Inv(l) && l.controller.Joining? && !l.running && Enabled(l, a)
    requires a == Join || a == Take || a == PrintConsole || a == PrintFile
    ensures var m := Next(l, a);
            && Inv(m) && m.file == l.file && m.colors == l.colors && !m.running
            && m.controller == (if a == Join then AfterPause(l.controller.goal) else l.controller)
  {
    StepKeepsInv(l, a);
    hide Inv, Taken;
  }

  lemma {:induction false} InvRing(l: Log)
    requires Inv(l)
    ensures ValidRing(l.ring)
  {
  }

  lemma {:induction false} JoiningFinishes(l: Log)
    requires Inv(l) && l.controller.Joining? && !l.controller.goal.JustPause? && !l.running
    ensures CanFinish(l, FileAfter(l, l.controller.goal), ColorsAfter(l, l.controller.goal))
    decreases Remaining(l)
  {
    var g := l.controller.goal;
    var a := NearerStep(l);
    NearerKeeps(l, a);
    InvRing(l);
    InvRing(Next(l, a));
    hide Inv, Remaining, CanFinish, Next, Enabled;
    if a == Join { StoppedFinishes(Next(l, a)); } else { JoiningFinishes(Next(l, a)); }
    FinishesAfter(l, a, FileAfter(l, g), ColorsAfter(l, g));
  }

  // Every request whose marker finds room can be carried out: some run, without another request, ends with
  // the log running and the file or the colours as asked.
  lemma {:induction false} RequestCompletes(l: Log, g: Goal)
    requires Inv(l) && l.controller.Idle? && !g.JustPause? && Roomy(l, CallPause(g))
    ensures CanFinish(Next(l, CallPause(g)), FileAfter(l, g), ColorsAfter(l, g))
  {
    StepKeepsInv(l, CallPause(g));
    var l' := Next(l, CallPause(g));
    hide Inv, CanFinish, Marked, Contents;
    if l.running { JoiningFinishes(l'); } else { StoppedFinishes(l'); }
  }

  // A pause can return exactly when its marker found two free slots; otherwise no run whatever ends it.
  lemma {:induction false} PauseReturnsIff(l: Log, g: Goal)
    requires Inv(l) && l.running
    ensures CanReturn(Next(l, CallPause(g))) <==> |Contents(l.ring)| + 2 <= |l.ring.entries|
  {
    var l' := Next(l, CallPause(g));
    ContentsFit(l.ring);
    if |Contents(l.ring)| + 2 <= |l.ring.entries| {
      StepKeepsInv(l, CallPause(g));
      hide Inv, CanReturn, Contents;
      WaitingReturns(l');
    } else {
      FullRingDeadlocks(l, g);
      hide Inv, Contents, Marked;
      if acts :| Returns(l', acts) {
        StuckStays(l', acts);
      }
    }
  }

  lemma {:induction false} ContentsFit(r: Ring)
    requires ValidRing(r)
    ensures |Contents(r)| < |r.entries|
  {
  }

  function Adds(msgs: seq<Message>): (acts: seq<Action>) {
    if msgs == [] then [] else [Action.Add(msgs[0])] + Adds(msgs[1..])
  }

  lemma {:induction false} AddedRoom(r: Ring, m: Message)
    requires ValidRing(r) && |Contents(r)| + 1 < |r.entries|
    ensures |Added(r, m).entries| == |r.entries| && |Contents(Added(r, m))| == |Contents(r)| + 1
  {
  }

  // Messages that fit are all taken in, without the ring growing.
  lemma {:induction false} AddsFill(l: Log, msgs: seq<Message>)
    requires Inv(l) && l.running && |Contents(l.ring)| + |msgs| < |l.ring.entries|
    ensures IsRun(l, Adds(msgs))
    ensures var e := Final(l, Adds(msgs));
            && Inv(e) && e.running && e.worker == l.worker
            && |e.ring.entries| == |l.ring.entries| && |Contents(e.ring)| == |Contents(l.ring)| + |msgs|
    decreases |msgs|
  {
    if msgs != [] {
      var a := Action.Add(msgs[0]);
      AddedRoom(l.ring, msgs[0]);
      StepKeepsInv(l, a);
      hide Contents, Added, Inv;
      AddsFill(Next(l, a), msgs[1..]);
      assert Adds(msgs)[0] == a && Adds(msgs)[1..] == Adds(msgs[1..]);
    }
  }

  // A new log whose worker has not yet taken the first of any capacity - 1 messages: pausing it now loses
  // them all, and the pause never returns.
  lemma {:induction false} FullRingReached(capacity: nat, msgs: seq<Message>, g: Goal)
    requires |msgs| + 1 == capacity
    ensures IsRun(Start(capacity), Adds(msgs))
    ensures var l := Final(Start(capacity), Adds(msgs));
            && Inv(l) && l.running && |Contents(l.ring)| == |msgs|
            && Contents(Next(l, CallPause(g)).ring) == [] && !CanReturn(Next(l, CallPause(g)))
  {
    StartInv(capacity);
    AddsFill(Start(capacity), msgs);
    var l := Final(Start(capacity), Adds(msgs));
    hide Inv, CanReturn, Adds, Final, IsRun, Contents;
    FullRingDeadlocks(l, g);
    PauseReturnsIff(l, g);
  }

  lemma {:induction false} UnrolledAt(r: Ring, k: nat)
    requires ValidRing(r) && k < |r.entries|
    ensures |Unrolled(r)| == |r.entries|
    ensures Unrolled(r)[k] == r.entries[if r.head + k < |r.entries| then r.head + k else r.head + k - |r.entries|]
  {
  }

  lemma {:induction false} DoubledRing(s: seq<Entry>, front: seq<Entry>)
    requires |s| == 2 * |front| && s[..|front|] == front[..|front|] && forall i :: |front| <= i < |s| ==> s[i] == FRESH
    ensures s == front + seq(|front|, _ => FRESH)
  {
    assert forall i :: 0 <= i < |front| ==> s[i] == s[..|front|][i];
  }

  // ---------- the class ----------

  class CommonLog {
    var entries: array<Entry>
    var head: nat
    var tail: nat
    var running: bool
    var file: Option<nat>
    var colors: bool
    var worker: Worker
    var controller: Controller
    ghost var accepted: seq<Message>
    ghost var console: seq<Line>
    ghost var filed: seq<Line>

    ghost function State(): Log
      reads this, entries
    {
      Log(Ring(entries[..], head, tail), running, file, colors, worker, controller, accepted, console, filed)
    }

    ghost predicate Valid()
      reads this, entries
    {
      ValidRing(State().ring)
    }

    constructor (capacity: nat)
      requires capacity >= 1
      ensures Valid() && fresh(entries) && State() == Start(capacity)
    {
      entries := new Entry[capacity](_ => FRESH);
      head, tail, running, file, colors := 0, 0, true, None, false;
      worker, controller := Waiting, Idle;
      accepted, console, filed := [], [], [];
      new;
      assert entries[..] == seq(capacity, _ => FRESH);
    }

    method AddMessage(msg: Message)
      requires Valid()
      modifies this, entries
      ensures entries == old(entries) || fresh(entries)
      ensures Valid() && State() == Next(old(State()), Add(msg))
    {
      if !running { return; }
      ghost var before := State().ring;
      entries[tail] := Entry(msg, false);
      tail := if tail + 1 < entries.Length then tail + 1 else 0;
      accepted := accepted + [msg];
      assert Ring(entries[..], head, tail) == Pushed(before, Entry(msg, false));
      if tail == head { Grow(); }
    }

    // Double the ring, moving the entries from the head around to the front.
    method Grow()
      requires Valid() && head == tail
      modifies this`entries, this`head, this`tail
      ensures fresh(entries) && Valid()
      ensures Ring(entries[..], head, tail)
              == Ring(Unrolled(old(State().ring)) + seq(old(entries.Length), _ => FRESH), 0, old(entries.Length))
    {
      hide Unrolled, Contents;
      var n := entries.Length;
      ghost var r := State().ring;
      UnrolledAt(r, 0);
      var newEntries := new Entry[2 * n](_ => FRESH);
      var newTail := 0;
      ghost var h0 := head;
      newEntries[0] := entries[head];
      head := if head + 1 < n then head + 1 else 0;
      newTail := 1;
      while head != tail
        invariant 1 <= newTail <= n && head < n && tail == h0
        invariant head == (if h0 + newTail < n then h0 + newTail else h0 + newTail - n)
        invariant entries[..] == r.entries
        invariant newEntries.Length == 2 * n && fresh(newEntries)
        invariant newEntries[..newTail] == Unrolled(r)[..newTail]
        invariant forall i :: newTail <= i < 2 * n ==> newEntries[i] == FRESH
        decreases n - newTail
      {
        UnrolledAt(r, newTail);
        newEntries[newTail] := entries[head];
        head := if head + 1 < n then head + 1 else 0;
        newTail := newTail + 1;
      }
      head := 0;
      tail := newTail;
      entries := newEntries;
      assert newTail == n;
      DoubledRing(entries[..], Unrolled(r));
    }

    // One pass of the worker loop up to the unlock.
    method WorkerTake()
      requires Valid() && Enabled(State(), Take)
      modifies this`head, this`worker
      ensures Valid() && State() == Next(old(State()), Take)
    {
      var cur := entries[head];
      head := if head + 1 < entries.Length then head + 1 else 0;
      worker := if cur.isEnd then Exited else Printing(cur.msg, false);
    }

    method WorkerPrint()
      requires Valid() && Enabled(State(), PrintConsole)
      modifies this`console, this`worker
      ensures Valid() && State() == Next(old(State()), PrintConsole)
    {
      console := console + [Line(worker.cur, file)];
      worker := Printing(worker.cur, true);
    }

    method WorkerPrintFile()
      requires Valid() && Enabled(State(), PrintFile)
      modifies this`filed, this`worker
      ensures Valid() && State() == Next(old(State()), PrintFile)
    {
      if file.Some? { filed := filed + [Line(worker.cur, file)]; }
      worker := Waiting;
    }

    method Pause(goal: Goal)
      requires Valid() && Enabled(State(), CallPause(goal))
      modifies this`running, this`tail, this`controller, entries
      ensures Valid() && State() == Next(old(State()), CallPause(goal))
    {
      if !running {
        controller := AfterPause(goal);
        return;
      }
      running := false;
      entries[tail] := entries[tail].(isEnd := true);
      tail := if tail + 1 < entries.Length then tail + 1 else 0;
      controller := Joining(goal);
    }

    method JoinWorker()
      requires Valid() && Enabled(State(), Join)
      modifies this`worker, this`controller
      ensures Valid() && State() == Next(old(State()), Join)
    {
      worker := NoThread;
      controller := AfterPause(controller.goal);
    }

    method ApplyChange()
      requires Valid() && Enabled(State(), Apply)
      modifies this`file, this`colors, this`controller
      ensures Valid() && State() == Next(old(State()), Apply)
    {
      match controller.goal {
        case SetFile(p) => file := p;
        case SetColors(on) => colors := on;
        case JustPause =>
      }
      controller := Resuming;
    }

    method Resume()
      requires Valid() && Enabled(State(), CallResume)
      modifies this`running, this`worker, this`controller
      ensures Valid() && State() == Next(old(State()), CallResume)
    {
      if !running {
        running := true;
        worker := Waiting;
      }
      controller := Idle;
    }
  }
}
