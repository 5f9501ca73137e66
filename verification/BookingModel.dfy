/** Read and write servers, each with many connections, over one record file under advisory locks:
    what one server does with one event, and what holds in every reachable state of all of them. */
module BookingModel {
  import opened BookingCommand

  const SLOTS := 23
  const LIMIT := 15

  predicate IsUser(id: int)
  {
    1 <= id <= USERS
  }

  // ----- the arithmetic of a booking

  /** The int that two's complement arithmetic leaves. */
  function Wrap(x: int): Int32
  {
    (x + 0x8000_0000) % 0x1_0000_0000 - 0x8000_0000
  }

  function Plus(a: Triple, b: Triple): Triple
  {
    Triple(Wrap(a.food + b.food), Wrap(a.concert + b.concert), Wrap(a.electronics + b.electronics))
  }

  function Sum(t: Triple): Int32
  {
    Wrap(Wrap(t.food + t.concert) + t.electronics)
  }

  predicate NonNegative(t: Triple)
  {
    t.food >= 0 && t.concert >= 0 && t.electronics >= 0
  }

  /** What a booking is meant to be: no negative amount, and at most 15 items in all. */
  predicate Legal(t: Triple)
  {
    NonNegative(t) && t.food + t.concert + t.electronics <= LIMIT
  }

  datatype Verdict = TooMany | BelowZero | Accepted(booking: Triple)

  function Decide(booked: Triple, modi: Triple): Verdict
  {
    var new_ := Plus(booked, modi);
    if Sum(new_) > LIMIT then TooMany
    else if !NonNegative(new_) then BelowZero
    else Accepted(new_)
  }

  /** The exact sum of two triples, where it fits. */
  predicate IsSum(t: Triple, a: Triple, b: Triple)
  {
    && t.food == a.food + b.food
    && t.concert == a.concert + b.concert
    && t.electronics == a.electronics + b.electronics
  }

  predicate Moderate(modi: Triple)
  {
    modi.food <= LIMIT && modi.concert <= LIMIT && modi.electronics <= LIMIT
  }

  lemma WrapFits(x: int)
    requires -0x8000_0000 <= x < 0x8000_0000
    ensures Wrap(x) == x
  {
  }

  /** Of two non-overflowing ints with the first non-negative, only a sum above the range wraps, and
      then to a negative number. */
  lemma WrapOfSum(a: Int32, b: Int32)
    requires a >= 0
    ensures Wrap(a + b) >= 0 ==> Wrap(a + b) == a + b
    ensures a + b < 0x8000_0000 ==> Wrap(a + b) == a + b
  {
  }

  /** An accepted command stores exactly the booking plus the command. */
  lemma AcceptedIsSum(booked: Triple, modi: Triple)
    requires NonNegative(booked) && Decide(booked, modi).Accepted?
    ensures NonNegative(Decide(booked, modi).booking) && IsSum(Decide(booked, modi).booking, booked, modi)
  {
    WrapOfSum(booked.food, modi.food);
    WrapOfSum(booked.concert, modi.concert);
    WrapOfSum(booked.electronics, modi.electronics);
  }

  /** What the two checks are for, and exactly when they achieve it.  From a legal booking, a
      command of moderate amounts is accepted exactly when the result is legal; an accepted command
      gives a legal booking exactly when its amounts are moderate, for otherwise the sum of the
      three amounts has wrapped around. */
  lemma AcceptedExactly(booked: Triple, modi: Triple)
    requires Legal(booked)
    ensures Moderate(modi) ==>
              (Decide(booked, modi).Accepted?
               <==> exists t :: IsSum(t, booked, modi) && Legal(t))
    ensures Decide(booked, modi).Accepted? ==> (Legal(Decide(booked, modi).booking) <==> Moderate(modi))
  {
    var t := Plus(booked, modi);
    WrapOfSum(booked.food, modi.food);
    WrapOfSum(booked.concert, modi.concert);
    WrapOfSum(booked.electronics, modi.electronics);
    if Moderate(modi) {
      assert IsSum(t, booked, modi);
      if NonNegative(t) {
        WrapFits(t.food + t.concert);
        WrapFits(t.food + t.concert + t.electronics);
      }
      forall u | IsSum(u, booked, modi) ensures u == t {
      }
    }
  }

  /** Exactly the commands that are accepted on a legal booking: no amount of the exact sum is negative or
      beyond an int, and the three together are at most 15, or so large that they wrap around to that
      or to less. */
  lemma AcceptedInClosedForm(booked: Triple, modi: Triple)
    requires Legal(booked)
    ensures var f, c, e := booked.food + modi.food as int, booked.concert + modi.concert as int,
                           booked.electronics + modi.electronics as int;
            Decide(booked, modi).Accepted? <==>
              && 0 <= f < 0x8000_0000 && 0 <= c < 0x8000_0000 && 0 <= e < 0x8000_0000
              && (f + c + e <= LIMIT || 0x8000_0000 <= f + c + e <= 0x1_0000_0000 + LIMIT)
  {
    hide Wrap;
    WrapOfSum(booked.food, modi.food);
    WrapOfSum(booked.concert, modi.concert);
    WrapOfSum(booked.electronics, modi.electronics);
    var t := Plus(booked, modi);
    if NonNegative(t) {
      SumUpTo(t.food, t.concert, t.electronics);
    }
    WrapOfInt(booked.food + modi.food);
    WrapOfInt(booked.concert + modi.concert);
    WrapOfInt(booked.electronics + modi.electronics);
  }

  lemma WrapOfInt(x: int)
    ensures 0 <= x < 0x8000_0000 ==> Wrap(x) == x
  {
  }

  /** The sum of three amounts as it wraps. */
  lemma SumUpTo(f: Int32, c: Int32, e: Int32)
    requires f >= 0 && c >= 0 && e >= 0
    ensures var sum := f as int + c + e;
            Wrap(Wrap(f + c) + e) == if sum < 0x8000_0000 then sum else sum - 0x1_0000_0000
  {
  }

  /** Wrapping adds a multiple of 2^32: k is how often. */
  lemma WrapModulo(x: int) returns (k: int)
    ensures Wrap(x) == x + k * 0x1_0000_0000 && -0x8000_0000 <= Wrap(x) < 0x8000_0000
  {
    k := -((x + 0x8000_0000) / 0x1_0000_0000);
  }

  /** The sum over which a booking is refused is the exact total, up to a multiple of 2^32. */
  lemma SumOfPlus(booked: Triple, modi: Triple) returns (k: int)
    ensures Sum(Plus(booked, modi)) ==
              booked.food as int + modi.food + booked.concert + modi.concert
              + booked.electronics + modi.electronics + k * 0x1_0000_0000
  {
    hide Wrap;
    var t := Plus(booked, modi);
    var f := WrapModulo(booked.food + modi.food);
    var c := WrapModulo(booked.concert + modi.concert);
    var e := WrapModulo(booked.electronics + modi.electronics);
    var two := WrapModulo(t.food + t.concert);
    var three := WrapModulo(Wrap(t.food + t.concert) + t.electronics);
    k := f + c + e + two + three;
  }

  lemma AmountFits(a: Int32, b: Int32)
    requires 0 <= a <= LIMIT
    ensures Wrap(a + b) >= 0 <==> 0 <= a + b < 0x8000_0000
  {
  }

  /** Which answer a command gets on a legal booking, in terms of the exact sums: too many if they total more
      than 15, or so little or so much that the total wraps around to that; otherwise below zero if an amount
      is negative or beyond an int, which wraps around to a negative one. */
  lemma VerdictInClosedForm(booked: Triple, modi: Triple)
    requires Legal(booked)
    ensures var f, c, e := booked.food + modi.food as int, booked.concert + modi.concert as int,
                           booked.electronics + modi.electronics as int;
            var total := f + c + e;
            var tooMany := || 15 < total < 0x8000_0000
                           || 15 < total + 0x1_0000_0000 < 0x8000_0000
                           || 15 < total - 0x1_0000_0000 < 0x8000_0000;
            var fit := 0 <= f < 0x8000_0000 && 0 <= c < 0x8000_0000 && 0 <= e < 0x8000_0000;
            && (Decide(booked, modi) == TooMany <==> tooMany)
            && (Decide(booked, modi) == BelowZero <==> !tooMany && !fit)
            && (Decide(booked, modi).Accepted? <==> !tooMany && fit)
  {
    hide Wrap, Sum;
    AmountFits(booked.food, modi.food);
    AmountFits(booked.concert, modi.concert);
    AmountFits(booked.electronics, modi.electronics);
    var k := SumOfPlus(booked, modi);
  }

  /** Three amounts whose sum wraps to zero pass both checks. */
  lemma WrappedSumAccepted()
    ensures Decide(Triple(0, 0, 0), Triple(0x7fff_ffff, 0x7fff_ffff, 2))
            == Accepted(Triple(0x7fff_ffff, 0x7fff_ffff, 2))
    ensures !Legal(Triple(0x7fff_ffff, 0x7fff_ffff, 2))
  {
  }

  // ----- one server and the record file

  datatype Lock = Unlocked | ReadLocked | WriteLocked

  datatype Role = ReadServer | WriteServer

  /** A connection before and after its client has named a user; shown is the booking that the
      server has displayed. */
  datatype Conn = AwaitingId | Session(id: int, shown: Triple)

  /** The record of every user, and the lock that each process holds on each of them. */
  datatype Disk = Disk(records: map<int, Triple>, locks: map<(int, int), Lock>)

  datatype Proc = Proc(role: Role, writelock: seq<bool>, readlock: seq<int>, conns: map<int, Conn>)

  datatype Reply = Prompt | Failed | IsLocked | Shows(booked: Triple) | Updated(stored: Triple)
                 | NotMoreThan15 | NotLessThan0 | Silent

  datatype Effect = Effect(disk: Disk, proc: Proc, reply: Reply)

  /** What a connection delivers: the end of the connection, or a line, together with what the
      scanning of a command finds in its variables and stores for numbers out of range. */
  datatype Input = Hangup | Line(text: string, prior: Triple, overflow: int -> Int32)

  function LockOf(d: Disk, p: int, id: int): Lock
  {
    if (p, id) in d.locks then d.locks[(p, id)] else Unlocked
  }

  predicate Compatible(a: Lock, b: Lock)
  {
    a == Unlocked || b == Unlocked || (a == ReadLocked && b == ReadLocked)
  }

  /** Another process holds a lock that keeps this one from being granted. */
  predicate Blocked(d: Disk, p: int, id: int, wanted: Lock)
  {
    exists k :: k in d.locks && k.0 != p && k.1 == id && !Compatible(d.locks[k], wanted)
  }

  /** Sets the lock of process p on the record of user id, replacing any it had. */
  function SetLock(d: Disk, p: int, id: int, lock: Lock): Disk
  {
    d.(locks := d.locks[(p, id) := lock])
  }

  ghost predicate ValidDisk(d: Disk)
  {
    forall id :: IsUser(id) ==> id in d.records
  }

  ghost predicate ValidProc(s: Proc)
  {
    && |s.writelock| == |s.readlock| == SLOTS
    && forall c :: c in s.conns && s.conns[c].Session? ==> IsUser(s.conns[c].id)
  }

  function Close(s: Proc, c: int): Proc
  {
    s.(conns := s.conns - {c})
  }

  function Open(s: Proc, c: int, id: int, shown: Triple): Proc
  {
    s.(conns := s.conns[c := Session(id, shown)])
  }

  /** The line with the user id. */
  function OnId(p: int, d: Disk, s: Proc, c: int, input: Input): Effect
    requires ValidDisk(d) && ValidProc(s)
  {
    if input.Hangup? then Effect(d, Close(s, c), Silent)
    else
      match ParseId(input.text)
      case None => Effect(d, Close(s, c), Failed)
      case Some(id) => if s.role.ReadServer? then StartReading(p, d, s, c, id) else StartWriting(p, d, s, c, id)
  }

  function StartReading(p: int, d: Disk, s: Proc, c: int, id: int): Effect
    requires ValidDisk(d) && ValidProc(s) && IsUser(id)
  {
    if Blocked(d, p, id, ReadLocked) then Effect(d, Close(s, c), IsLocked)
    else
      var s' := s.(readlock := s.readlock[id := s.readlock[id] + 1]);
      Effect(SetLock(d, p, id, ReadLocked), Open(s', c, id, d.records[id]), Shows(d.records[id]))
  }

  function StartWriting(p: int, d: Disk, s: Proc, c: int, id: int): Effect
    requires ValidDisk(d) && ValidProc(s) && IsUser(id)
  {
    if s.writelock[id] || Blocked(d, p, id, WriteLocked) then Effect(d, Close(s, c), IsLocked)
    else
      var s' := s.(writelock := s.writelock[id := true]);
      Effect(SetLock(d, p, id, WriteLocked), Open(s', c, id, d.records[id]), Shows(d.records[id]))
  }

  function StopReading(p: int, d: Disk, s: Proc, c: int, id: int, reply: Reply): Effect
    requires ValidDisk(d) && ValidProc(s) && IsUser(id)
  {
    var n := s.readlock[id] - 1;
    Effect(if n == 0 then SetLock(d, p, id, Unlocked) else d, Close(s.(readlock := s.readlock[id := n]), c), reply)
  }

  function StopWriting(p: int, d: Disk, s: Proc, c: int, id: int, reply: Reply): Effect
    requires ValidDisk(d) && ValidProc(s) && IsUser(id)
  {
    Effect(SetLock(d, p, id, Unlocked), Close(s.(writelock := s.writelock[id := false]), c), reply)
  }

  /** A line of a client that has named its user. */
  function OnSession(p: int, d: Disk, s: Proc, c: int, id: int, input: Input): Effect
    requires ValidDisk(d) && ValidProc(s) && IsUser(id)
  {
    if s.role.ReadServer? then
      if input.Hangup? || input.text == "Exit" then StopReading(p, d, s, c, id, Silent)
      else Effect(d, s, Silent)
    else if input.Hangup? then StopWriting(p, d, s, c, id, Silent)
    else
      match ParseCommand(input.text, input.prior, input.overflow)
      case None => StopWriting(p, d, s, c, id, Failed)
      case Some(modi) =>
        match Decide(d.records[id], modi)
        case TooMany => StopWriting(p, d, s, c, id, NotMoreThan15)
        case BelowZero => StopWriting(p, d, s, c, id, NotLessThan0)
        case Accepted(new_) => StopWriting(p, d.(records := d.records[id := new_]), s, c, id, Updated(new_))
  }

  /** What a writer is told about a command on a legal booking, and what is stored, in terms of the exact
      sums.  Within the range of an int: more than 15 in all are refused as too many, a total up to 15 with a
      negative amount as below zero, and everything else is stored. */
  lemma ReplyToCommand(p: int, d: Disk, s: Proc, conn: int, id: int, input: Input, modi: Triple)
    requires ValidDisk(d) && ValidProc(s) && IsUser(id) && s.role.WriteServer? && Legal(d.records[id])
    requires input.Line? && input.text == PrintTriple(modi)
    ensures var booked, r := d.records[id], OnSession(p, d, s, conn, id, input);
            var f, c, e := booked.food + modi.food as int, booked.concert + modi.concert as int,
                           booked.electronics + modi.electronics as int;
            var total := f + c + e;
            var tooMany := || 15 < total < 0x8000_0000
                           || 15 < total + 0x1_0000_0000 < 0x8000_0000
                           || 15 < total - 0x1_0000_0000 < 0x8000_0000;
            var fit := 0 <= f < 0x8000_0000 && 0 <= c < 0x8000_0000 && 0 <= e < 0x8000_0000;
            && (r.reply == NotMoreThan15 <==> tooMany)
            && (r.reply == NotLessThan0 <==> !tooMany && !fit)
            && (!tooMany && fit ==>
                  r.reply == Updated(Triple(f, c, e)) && r.disk.records == d.records[id := Triple(f, c, e)])
            && (modi.food <= 15 && modi.concert <= 15 && modi.electronics <= 15 && total >= -0x8000_0000 ==>
                  && (r.reply == NotMoreThan15 <==> total > 15)
                  && (r.reply == NotLessThan0 <==> total <= 15 && (f < 0 || c < 0 || e < 0)))
  {
    hide ParseCommand, Decide, PrintTriple, StopWriting;
    CommandIsCanonical(input.text, input.prior, input.overflow);
    assert ParseCommand(input.text, input.prior, input.overflow) == Some(modi);
    VerdictInClosedForm(d.records[id], modi);
    if Decide(d.records[id], modi).Accepted? {
      AcceptedIsSum(d.records[id], modi);
    }
    WritingStops(p, d, s, conn, id, NotMoreThan15);
    WritingStops(p, d, s, conn, id, NotLessThan0);
    WritingStops(p, d.(records := d.records[id := Plus(d.records[id], modi)]), s, conn, id,
                 Updated(Plus(d.records[id], modi)));
  }

  /** The end of a write session: the lock and the mark of the user are gone, and so is the connection. */
  lemma WritingStops(p: int, d: Disk, s: Proc, c: int, id: int, reply: Reply)
    requires ValidDisk(d) && ValidProc(s) && IsUser(id)
    ensures var r := StopWriting(p, d, s, c, id, reply);
            && r.reply == reply && r.disk == Disk(d.records, d.locks[(p, id) := Unlocked])
            && r.proc == s.(conns := s.conns - {c}, writelock := s.writelock[id := false])
  {
  }

  /** What a line or a hang-up does to a write session: it ends, whatever is typed; a line that is no command is
      refused, and only an accepted command changes a record. */
  lemma WriteSessionEnds(p: int, d: Disk, s: Proc, c: int, id: int, input: Input)
    requires ValidDisk(d) && ValidProc(s) && IsUser(id) && s.role.WriteServer?
    ensures var r := OnSession(p, d, s, c, id, input);
            && r.proc == s.(conns := s.conns - {c}, writelock := s.writelock[id := false])
            && r.disk.locks == d.locks[(p, id) := Unlocked]
            && (input.Hangup? ==> r.reply == Silent)
            && (input.Line? ==> (r.reply == Failed <==> forall t :: input.text != PrintTriple(t)))
            && (!r.reply.Updated? ==> r.disk.records == d.records)
  {
    hide ParseCommand, Decide, PrintTriple;
    if input.Line? {
      CommandIsCanonical(input.text, input.prior, input.overflow);
    }
  }

  /** What they do to a read session: it ends with "Exit" or a hang-up, with one reader less, and the last reader
      of the process takes the lock along; any other line changes nothing. */
  lemma ReadSessionEnds(p: int, d: Disk, s: Proc, c: int, id: int, input: Input)
    requires ValidDisk(d) && ValidProc(s) && IsUser(id) && s.role.ReadServer?
    ensures var r := OnSession(p, d, s, c, id, input);
            && r.reply == Silent && r.disk.records == d.records
            && if input.Hangup? || input.text == "Exit" then
                 && r.proc == s.(conns := s.conns - {c}, readlock := s.readlock[id := s.readlock[id] - 1])
                 && r.disk.locks == if s.readlock[id] == 1 then d.locks[(p, id) := Unlocked] else d.locks
               else r.proc == s && r.disk == d
  {
  }

  /** A hang-up or a line that is no user's number ends a connection without a session. */
  lemma NoSession(p: int, d: Disk, s: Proc, c: int, input: Input)
    requires ValidDisk(d) && ValidProc(s) && c in s.conns && s.conns[c].AwaitingId?
    requires input.Line? ==>
               forall n: nat, k: nat :: 902001 <= n <= 902020 ==> input.text != Zeros(k) + PrintNat(n)
    ensures OnInput(p, d, s, c, input)
         == Effect(d, s.(conns := s.conns - {c}), if input.Hangup? then Silent else Failed)
  {
    hide ParseId;
    if input.Line? && ParseId(input.text).Some? {
      IdExactly(input.text, ParseId(input.text).value);
      ParsedIsUser(input.text);
    }
  }

  function OnInput(p: int, d: Disk, s: Proc, c: int, input: Input): Effect
    requires ValidDisk(d) && ValidProc(s) && c in s.conns
  {
    if s.conns[c].AwaitingId? then OnId(p, d, s, c, input)
    else OnSession(p, d, s, c, s.conns[c].id, input)
  }

  function OnAccept(s: Proc, c: int): Proc
  {
    s.(conns := s.conns[c := AwaitingId])
  }

  // ----- all servers together

  datatype Commit = Commit(id: int, shown: Triple, modi: Triple, stored: Triple)

  datatype World = World(disk: Disk, procs: map<int, Proc>, log: seq<Commit>)

  datatype Event = Accept(p: int, c: int) | Receive(p: int, c: int, input: Input)

  ghost predicate ValidWorld(w: World)
  {
    ValidDisk(w.disk) && forall p :: p in w.procs ==> ValidProc(w.procs[p])
  }

  /** A new connection gets a descriptor that is not in use; a line arrives on one that is. */
  ghost predicate Enabled(w: World, e: Event)
  {
    && ValidWorld(w)
    && e.p in w.procs
    && (if e.Accept? then e.c !in w.procs[e.p].conns else e.c in w.procs[e.p].conns)
  }

  ghost function Next(w: World, e: Event): World
    requires Enabled(w, e)
  {
    var s := w.procs[e.p];
    match e
    case Accept(p, c) => w.(procs := w.procs[p := OnAccept(s, c)])
    case Receive(p, c, input) =>
      var r := OnInput(p, w.disk, s, c, input);
      World(r.disk, w.procs[p := r.proc], w.log + Committed(w.disk, s, c, input, r.reply))
  }

  /** The entry that an accepted command adds to the history. */
  ghost function Committed(d: Disk, s: Proc, c: int, input: Input, reply: Reply): seq<Commit>
    requires c in s.conns
  {
    if reply.Updated? && s.conns[c].Session? && input.Line? then
      match ParseCommand(input.text, input.prior, input.overflow)
      case None => []
      case Some(modi) => [Commit(s.conns[c].id, s.conns[c].shown, modi, reply.stored)]
    else []
  }

  // ----- what holds in every state

  /** The connections on which clients of user id are served. */
  ghost function Sessions(s: Proc, id: int): set<int>
  {
    set c | c in s.conns && s.conns[c].Session? && s.conns[c].id == id
  }

  /** The counters of a process, its locks and its sessions say the same, and what every client
      has been shown is still what the record says. */
  ghost predicate ProcAgrees(d: Disk, p: int, s: Proc)
  {
    && ValidDisk(d) && ValidProc(s)
    && (forall c :: c in s.conns && s.conns[c].Session? ==> s.conns[c].shown == d.records[s.conns[c].id])
    && (forall id :: IsUser(id) ==> UserAgrees(d, p, s, id))
  }

  ghost predicate UserAgrees(d: Disk, p: int, s: Proc, id: int)
    requires ValidProc(s) && IsUser(id)
  {
    match s.role
    case ReadServer =>
      && s.readlock[id] == |Sessions(s, id)|
      && LockOf(d, p, id) == if s.readlock[id] > 0 then ReadLocked else Unlocked
    case WriteServer =>
      && |Sessions(s, id)| == (if s.writelock[id] then 1 else 0)
      && LockOf(d, p, id) == if s.writelock[id] then WriteLocked else Unlocked
  }

  /** Locks of different processes on one record do not exclude each other. */
  ghost predicate LocksAgree(w: World)
  {
    && (forall k, m :: k in w.disk.locks && m in w.disk.locks && k.0 != m.0 && k.1 == m.1 ==>
                         Compatible(w.disk.locks[k], w.disk.locks[m]))
    && (forall k :: k in w.disk.locks && w.disk.locks[k] != Unlocked ==> k.0 in w.procs && IsUser(k.1))
  }

  /** The initial booking of user id plus the commands committed for it, as plain numbers. */
  ghost function Booked(init: map<int, Triple>, log: seq<Commit>, id: int): (int, int, int)
    requires id in init
  {
    if log == [] then (init[id].food, init[id].concert, init[id].electronics)
    else
      var b := Booked(init, log[..|log| - 1], id);
      var last := log[|log| - 1];
      if last.id == id then
        (b.0 + last.modi.food, b.1 + last.modi.concert, b.2 + last.modi.electronics)
      else b
  }

  ghost predicate Equals(t: Triple, b: (int, int, int))
  {
    t.food == b.0 && t.concert == b.1 && t.electronics == b.2
  }

  /** Each commit was made on the booking its client had been shown, which was the booking that all
      earlier commits leave, and stored that booking plus the command. */
  ghost predicate Serial(init: map<int, Triple>, log: seq<Commit>)
    requires forall id :: IsUser(id) ==> id in init
  {
    forall i :: 0 <= i < |log| ==>
      && IsUser(log[i].id)
      && Equals(log[i].shown, Booked(init, log[..i], log[i].id))
      && Decide(log[i].shown, log[i].modi) == Accepted(log[i].stored)
      && IsSum(log[i].stored, log[i].shown, log[i].modi)
  }

  ghost predicate Inv(init: map<int, Triple>, w: World)
    requires forall id :: IsUser(id) ==> id in init
  {
    && (forall p :: p in w.procs ==> ProcAgrees(w.disk, p, w.procs[p]))
    && ValidDisk(w.disk)
    && LocksAgree(w)
    && (forall id :: IsUser(id) ==>
          NonNegative(w.disk.records[id]) && Equals(w.disk.records[id], Booked(init, w.log, id)))
    && Serial(init, w.log)
  }

  /** No connections, no locks, and records that are zero or positive. */
  ghost predicate Initial(w: World)
  {
    && ValidDisk(w.disk) && w.log == []
    && (forall id :: IsUser(id) ==> NonNegative(w.disk.records[id]))
    && (forall k :: k in w.disk.locks ==> w.disk.locks[k] == Unlocked)
    && forall p :: p in w.procs ==>
         && w.procs[p].conns == map[]
         && w.procs[p].writelock == seq(SLOTS, i => false)
         && w.procs[p].readlock == seq(SLOTS, i => 0)
  }

  lemma InitialInv(w: World)
    requires Initial(w)
    ensures Inv(w.disk.records, w)
  {
    forall p | p in w.procs ensures ProcAgrees(w.disk, p, w.procs[p]) {
      forall id | IsUser(id) ensures UserAgrees(w.disk, p, w.procs[p], id) {
        assert Sessions(w.procs[p], id) == {};
      }
    }
  }

  // ----- one event keeps it

  /** What one event may do to the record file: only process p's lock on one user changes, to one
      that the others allow, and only that record, under p's write lock. */
  ghost predicate Touches(d: Disk, d': Disk, p: int, id: int)
    requires ValidDisk(d)
  {
    && IsUser(id)
    && (d'.locks == d.locks ||
        ((p, id) in d'.locks && d'.locks == d.locks[(p, id) := d'.locks[(p, id)]]
         && !Blocked(d, p, id, d'.locks[(p, id)])))
    && (d'.records == d.records ||
        (id in d'.records && d'.records == d.records[id := d'.records[id]] && LockOf(d, p, id) == WriteLocked))
  }

  lemma NoWriterElsewhere(w: World, p: int, q: int, id: int)
    requires LocksAgree(w) && LockOf(w.disk, p, id) == WriteLocked && p != q
    ensures LockOf(w.disk, q, id) == Unlocked
  {
    if (q, id) in w.disk.locks {
      assert (p, id) in w.disk.locks;
      assert Compatible(w.disk.locks[(p, id)], w.disk.locks[(q, id)]);
    }
  }

  /** A process that holds no lock on a user has no session for it. */
  lemma UnlockedMeansNoSession(d: Disk, p: int, s: Proc, c: int)
    requires ProcAgrees(d, p, s) && c in s.conns && s.conns[c].Session?
    ensures LockOf(d, p, s.conns[c].id) == if s.role.ReadServer? then ReadLocked else WriteLocked
  {
    var id := s.conns[c].id;
    assert UserAgrees(d, p, s, id);
    assert c in Sessions(s, id);
  }

  lemma OthersKept(w: World, d': Disk, p: int, id: int, q: int)
    requires ValidDisk(w.disk) && LocksAgree(w) && Touches(w.disk, d', p, id)
    requires q in w.procs && q != p && ProcAgrees(w.disk, q, w.procs[q])
    ensures ProcAgrees(d', q, w.procs[q])
  {
    var s := w.procs[q];
    forall i | IsUser(i) ensures UserAgrees(d', q, s, i) {
      assert UserAgrees(w.disk, q, s, i);
      assert LockOf(d', q, i) == LockOf(w.disk, q, i);
    }
    forall c | c in s.conns && s.conns[c].Session? ensures s.conns[c].shown == d'.records[s.conns[c].id] {
      UnlockedMeansNoSession(w.disk, q, s, c);
      if d'.records != w.disk.records {
        NoWriterElsewhere(w, p, q, id);
      }
    }
  }

  lemma LocksKept(w: World, w': World, p: int, id: int)
    requires ValidDisk(w.disk) && LocksAgree(w) && p in w.procs && w'.procs.Keys == w.procs.Keys
    requires Touches(w.disk, w'.disk, p, id)
    ensures LocksAgree(w')
  {
    if w'.disk.locks != w.disk.locks {
      var l := w'.disk.locks[(p, id)];
      forall k, m | k in w'.disk.locks && m in w'.disk.locks && k.0 != m.0 && k.1 == m.1
        ensures Compatible(w'.disk.locks[k], w'.disk.locks[m])
      {
        if k == (p, id) {
          assert m in w.disk.locks && Compatible(w.disk.locks[m], l);
        } else if m == (p, id) {
          assert k in w.disk.locks && Compatible(w.disk.locks[k], l);
        }
      }
    }
  }

  lemma SessionsOpen(s: Proc, c: int, id: int, shown: Triple, i: int)
    requires c in s.conns && s.conns[c].AwaitingId?
    ensures |Sessions(Open(s, c, id, shown), i)| == |Sessions(s, i)| + if i == id then 1 else 0
  {
    if i == id {
      assert Sessions(Open(s, c, id, shown), i) == Sessions(s, i) + {c} && c !in Sessions(s, i);
    } else {
      assert Sessions(Open(s, c, id, shown), i) == Sessions(s, i);
    }
  }

  lemma SessionsClose(s: Proc, c: int, i: int)
    requires c in s.conns
    ensures |Sessions(Close(s, c), i)|
         == |Sessions(s, i)| - if s.conns[c].Session? && s.conns[c].id == i then 1 else 0
  {
    assert Sessions(Close(s, c), i) == Sessions(s, i) - {c};
  }

  lemma CloseAgrees(p: int, d: Disk, s: Proc, c: int)
    requires ProcAgrees(d, p, s) && c in s.conns && s.conns[c].AwaitingId?
    ensures ProcAgrees(d, p, Close(s, c))
  {
    forall i | IsUser(i) ensures UserAgrees(d, p, Close(s, c), i) {
      assert UserAgrees(d, p, s, i);
      SessionsClose(s, c, i);
    }
  }

  lemma AcceptAgrees(p: int, d: Disk, s: Proc, c: int)
    requires ProcAgrees(d, p, s) && c !in s.conns
    ensures ProcAgrees(d, p, OnAccept(s, c))
  {
    forall i | IsUser(i) ensures UserAgrees(d, p, OnAccept(s, c), i) {
      assert UserAgrees(d, p, s, i);
      assert Sessions(OnAccept(s, c), i) == Sessions(s, i);
    }
  }

  lemma StartReadingAgrees(p: int, d: Disk, s: Proc, c: int, id: int)
    requires ProcAgrees(d, p, s) && c in s.conns && s.conns[c].AwaitingId? && s.role.ReadServer? && IsUser(id)
    ensures var r := StartReading(p, d, s, c, id);
            Touches(d, r.disk, p, id) && ProcAgrees(r.disk, p, r.proc)
  {
    if Blocked(d, p, id, ReadLocked) {
      CloseAgrees(p, d, s, c);
    } else {
      var r := StartReading(p, d, s, c, id);
      var s' := s.(readlock := s.readlock[id := s.readlock[id] + 1]);
      forall i | IsUser(i) ensures UserAgrees(r.disk, p, r.proc, i) {
        assert UserAgrees(d, p, s, i);
        assert Sessions(s', i) == Sessions(s, i);
        SessionsOpen(s', c, id, d.records[id], i);
      }
    }
  }

  lemma StartWritingAgrees(p: int, d: Disk, s: Proc, c: int, id: int)
    requires ProcAgrees(d, p, s) && c in s.conns && s.conns[c].AwaitingId? && s.role.WriteServer? && IsUser(id)
    ensures var r := StartWriting(p, d, s, c, id);
            Touches(d, r.disk, p, id) && ProcAgrees(r.disk, p, r.proc)
  {
    if s.writelock[id] || Blocked(d, p, id, WriteLocked) {
      CloseAgrees(p, d, s, c);
    } else {
      var r := StartWriting(p, d, s, c, id);
      var s' := s.(writelock := s.writelock[id := true]);
      forall i | IsUser(i) ensures UserAgrees(r.disk, p, r.proc, i) {
        assert UserAgrees(d, p, s, i);
        assert Sessions(s', i) == Sessions(s, i);
        SessionsOpen(s', c, id, d.records[id], i);
      }
    }
  }

  lemma StopReadingAgrees(p: int, d: Disk, s: Proc, c: int, id: int, reply: Reply)
    requires ProcAgrees(d, p, s) && c in s.conns && s.conns[c].Session? && s.conns[c].id == id
    requires s.role.ReadServer? && IsUser(id)
    ensures var r := StopReading(p, d, s, c, id, reply);
            Touches(d, r.disk, p, id) && ProcAgrees(r.disk, p, r.proc)
  {
    var r := StopReading(p, d, s, c, id, reply);
    var s' := s.(readlock := s.readlock[id := s.readlock[id] - 1]);
    forall i | IsUser(i) ensures UserAgrees(r.disk, p, r.proc, i) {
      assert UserAgrees(d, p, s, i);
      assert Sessions(s', i) == Sessions(s, i);
      SessionsClose(s', c, i);
    }
  }

  /** The end of a write session, whether or not its command has changed the record. */
  lemma StopWritingAgrees(p: int, d: Disk, s: Proc, c: int, id: int, stored: Triple, reply: Reply)
    requires ProcAgrees(d, p, s) && c in s.conns && s.conns[c].Session? && s.conns[c].id == id
    requires s.role.WriteServer? && IsUser(id)
    ensures var r := StopWriting(p, d.(records := d.records[id := stored]), s, c, id, reply);
            Touches(d, r.disk, p, id) && ProcAgrees(r.disk, p, r.proc)
  {
    var d' := d.(records := d.records[id := stored]);
    var r := StopWriting(p, d', s, c, id, reply);
    var s' := s.(writelock := s.writelock[id := false]);
    UnlockedMeansNoSession(d, p, s, c);
    assert UserAgrees(d, p, s, id);
    forall i | IsUser(i) ensures UserAgrees(r.disk, p, r.proc, i) {
      assert UserAgrees(d, p, s, i);
      assert Sessions(s', i) == Sessions(s, i);
      SessionsClose(s', c, i);
    }
    forall e | e in r.proc.conns && r.proc.conns[e].Session?
      ensures r.proc.conns[e].shown == r.disk.records[r.proc.conns[e].id] {
      OnlySession(s, id, c, e);
    }
  }

  lemma OnlySession(s: Proc, id: int, c: int, e: int)
    requires |Sessions(s, id)| <= 1 && c in Sessions(s, id) && e in s.conns && e != c
    ensures s.conns[e].Session? ==> s.conns[e].id != id
  {
    if s.conns[e].Session? && s.conns[e].id == id {
      assert {c, e} <= Sessions(s, id);
      SubsetSize({c, e}, Sessions(s, id));
    }
  }

  lemma SubsetSize(a: set<int>, b: set<int>)
    requires a <= b
    ensures |a| <= |b|
  {
    assert b == a + (b - a);
  }

  /** What one line does to its process and the record file, and which user's record it may touch. */
  lemma InputAgrees(p: int, d: Disk, s: Proc, c: int, input: Input) returns (id: int)
    requires ProcAgrees(d, p, s) && c in s.conns
    ensures var r := OnInput(p, d, s, c, input);
            Touches(d, r.disk, p, id) && ProcAgrees(r.disk, p, r.proc)
  {
    if s.conns[c].Session? {
      id := s.conns[c].id;
      SessionAgrees(p, d, s, c, id, input);
    } else {
      id := 1;
      if input.Hangup? || ParseId(input.text).None? {
        CloseAgrees(p, d, s, c);
      } else {
        id := ParseId(input.text).value;
        if s.role.ReadServer? {
          StartReadingAgrees(p, d, s, c, id);
        } else {
          StartWritingAgrees(p, d, s, c, id);
        }
      }
    }
  }

  lemma SessionAgrees(p: int, d: Disk, s: Proc, c: int, id: int, input: Input)
    requires ProcAgrees(d, p, s) && c in s.conns && s.conns[c].Session? && s.conns[c].id == id && IsUser(id)
    ensures var r := OnSession(p, d, s, c, id, input);
            Touches(d, r.disk, p, id) && ProcAgrees(r.disk, p, r.proc)
  {
    hide ParseCommand, Decide;
    var r := OnSession(p, d, s, c, id, input);
    if s.role.ReadServer? {
      StopReadingAgrees(p, d, s, c, id, Silent);
    } else {
      var stored := if r.reply.Updated? then r.reply.stored else d.records[id];
      assert d.(records := d.records[id := d.records[id]]) == d;
      StopWritingAgrees(p, d, s, c, id, stored, r.reply);
    }
  }

  /** A record changes exactly when a command is committed, to what the commit says. */
  lemma CommitChanges(p: int, d: Disk, s: Proc, c: int, input: Input)
    requires ProcAgrees(d, p, s) && c in s.conns
    requires forall id :: IsUser(id) ==> NonNegative(d.records[id])
    ensures var r := OnInput(p, d, s, c, input);
            var log := Committed(d, s, c, input, r.reply);
            if log == [] then r.disk.records == d.records
            else
              && |log| == 1 && IsUser(log[0].id) && log[0].shown == d.records[log[0].id]
              && r.disk.records == d.records[log[0].id := log[0].stored]
              && Decide(log[0].shown, log[0].modi) == Accepted(log[0].stored)
              && IsSum(log[0].stored, log[0].shown, log[0].modi) && NonNegative(log[0].stored)
  {
    var log := Committed(d, s, c, input, OnInput(p, d, s, c, input).reply);
    if log != [] {
      AcceptedIsSum(log[0].shown, log[0].modi);
    }
  }

  /** The history of one user grows by the commits for it. */
  lemma BookedGrows(init: map<int, Triple>, log: seq<Commit>, e: Commit, id: int)
    requires id in init
    ensures Booked(init, log + [e], id)
         == var b := Booked(init, log, id);
            if e.id == id then (b.0 + e.modi.food, b.1 + e.modi.concert, b.2 + e.modi.electronics) else b
  {
    assert (log + [e])[..|log|] == log;
  }

  lemma SerialGrows(init: map<int, Triple>, log: seq<Commit>, e: Commit)
    requires (forall id :: IsUser(id) ==> id in init) && Serial(init, log)
    requires IsUser(e.id) && Equals(e.shown, Booked(init, log, e.id))
    requires Decide(e.shown, e.modi) == Accepted(e.stored) && IsSum(e.stored, e.shown, e.modi)
    ensures Serial(init, log + [e])
  {
    var l := log + [e];
    forall i | 0 <= i < |l|
      ensures IsUser(l[i].id) && Equals(l[i].shown, Booked(init, l[..i], l[i].id))
              && Decide(l[i].shown, l[i].modi) == Accepted(l[i].stored) && IsSum(l[i].stored, l[i].shown, l[i].modi)
    {
      assert l[..i] == if i < |log| then log[..i] else log;
    }
  }

  /** Every event keeps the invariant. */
  lemma InvKept(init: map<int, Triple>, w: World, e: Event)
    requires (forall id :: IsUser(id) ==> id in init) && Inv(init, w) && Enabled(w, e)
    ensures Inv(init, Next(w, e))
  {
    var s, w' := w.procs[e.p], Next(w, e);
    if e.Accept? {
      AcceptAgrees(e.p, w.disk, s, e.c);
    } else {
      var r := OnInput(e.p, w.disk, s, e.c, e.input);
      var id := InputAgrees(e.p, w.disk, s, e.c, e.input);
      forall q | q in w'.procs ensures ProcAgrees(w'.disk, q, w'.procs[q]) {
        if q != e.p {
          OthersKept(w, r.disk, e.p, id, q);
        }
      }
      LocksKept(w, w', e.p, id);
      CommitChanges(e.p, w.disk, s, e.c, e.input);
      HistoryKept(init, w, e);
    }
  }

  lemma HistoryKept(init: map<int, Triple>, w: World, e: Event)
    requires (forall id :: IsUser(id) ==> id in init) && Inv(init, w) && Enabled(w, e) && e.Receive?
    ensures var w' := Next(w, e);
            && Serial(init, w'.log)
            && forall id :: IsUser(id) ==>
                 && id in w'.disk.records && NonNegative(w'.disk.records[id])
                 && Equals(w'.disk.records[id], Booked(init, w'.log, id))
  {
    hide OnInput, Committed, Decide, Serial;
    var s, w' := w.procs[e.p], Next(w, e);
    var r := OnInput(e.p, w.disk, s, e.c, e.input);
    var added := Committed(w.disk, s, e.c, e.input, r.reply);
    CommitChanges(e.p, w.disk, s, e.c, e.input);
    if added == [] {
      assert w'.log == w.log;
    } else {
      assert added == [added[0]];
      SerialGrows(init, w.log, added[0]);
      forall id | IsUser(id)
        ensures id in w'.disk.records && NonNegative(w'.disk.records[id])
        ensures Equals(w'.disk.records[id], Booked(init, w'.log, id))
      {
        BookedGrows(init, w.log, added[0], id);
      }
    }
  }

  // ----- whole runs

  /** A run from servers without connections: one event after the other, on any servers. */
  ghost predicate Behaviour(ws: seq<World>, es: seq<Event>)
  {
    && |ws| == |es| + 1
    && Initial(ws[0])
    && forall i :: 0 <= i < |es| ==> Enabled(ws[i], es[i]) && ws[i + 1] == Next(ws[i], es[i])
  }

  lemma {:induction false} BehaviourInv(ws: seq<World>, es: seq<Event>)
    requires Behaviour(ws, es)
    ensures Inv(ws[0].disk.records, ws[|es|])
  {
    var n := |es|;
    if n == 0 {
      InitialInv(ws[0]);
    } else {
      BehaviourInv(ws[..n], es[..n - 1]);
      InvKept(ws[0].disk.records, ws[n - 1], es[n - 1]);
    }
  }

  /** Connection c of process p serves a client of user id. */
  ghost predicate Serves(w: World, p: int, c: int, id: int)
  {
    p in w.procs && c in w.procs[p].conns && w.procs[p].conns[c].Session? && w.procs[p].conns[c].id == id
  }

  /** Two clients of the same user are served at the same time, by one process or by two, only if
      both are readers. */
  lemma MutualExclusion(ws: seq<World>, es: seq<Event>, p: int, c: int, q: int, e: int, id: int)
    requires Behaviour(ws, es) && (p, c) != (q, e)
    requires Serves(ws[|es|], p, c, id) && Serves(ws[|es|], q, e, id)
    ensures ws[|es|].procs[p].role.ReadServer? && ws[|es|].procs[q].role.ReadServer?
  {
    var w := ws[|es|];
    BehaviourInv(ws, es);
    assert ProcAgrees(w.disk, p, w.procs[p]) && ProcAgrees(w.disk, q, w.procs[q]);
    UnlockedMeansNoSession(w.disk, p, w.procs[p], c);
    UnlockedMeansNoSession(w.disk, q, w.procs[q], e);
    if p == q {
      if w.procs[p].role.WriteServer? {
        assert UserAgrees(w.disk, p, w.procs[p], id);
        OnlySession(w.procs[p], id, c, e);
      }
    } else {
      if w.procs[p].role.WriteServer? { NoWriterElsewhere(w, p, q, id); }
      if w.procs[q].role.WriteServer? { NoWriterElsewhere(w, q, p, id); }
    }
  }

  /** What a client is told about a user is current, for as long as the client is served: it is the
      initial booking plus all commands committed so far. */
  lemma ShownIsCurrent(ws: seq<World>, es: seq<Event>, p: int, c: int, id: int)
    requires Behaviour(ws, es) && Serves(ws[|es|], p, c, id)
    ensures id in ws[0].disk.records && id in ws[|es|].disk.records
    ensures ws[|es|].procs[p].conns[c].shown == ws[|es|].disk.records[id]
    ensures Equals(ws[|es|].procs[p].conns[c].shown, Booked(ws[0].disk.records, ws[|es|].log, id))
  {
    BehaviourInv(ws, es);
    assert ProcAgrees(ws[|es|].disk, p, ws[|es|].procs[p]);
  }

  /** Bookings are serial: every record is its initial value plus the commands committed for its
      user, and every commit was made on the booking that the commits before it left. */
  lemma BookingsSerial(ws: seq<World>, es: seq<Event>, id: int)
    requires Behaviour(ws, es) && IsUser(id)
    ensures id in ws[0].disk.records && id in ws[|es|].disk.records
    ensures Equals(ws[|es|].disk.records[id], Booked(ws[0].disk.records, ws[|es|].log, id))
    ensures forall i :: IsUser(i) ==> i in ws[0].disk.records
    ensures Serial(ws[0].disk.records, ws[|es|].log)
  {
    BehaviourInv(ws, es);
  }

  /** A client that names a user is turned away exactly when it would clash with another client:
      at a write server when anyone at all is served for that user, at a read server when a writer
      is.  Otherwise it is shown the record. */
  lemma LockedExactly(ws: seq<World>, es: seq<Event>, p: int, c: int, input: Input)
    requires Behaviour(ws, es)
    requires var w := ws[|es|];
             && p in w.procs && c in w.procs[p].conns && w.procs[p].conns[c].AwaitingId?
             && input.Line? && ParseId(input.text).Some? && ValidWorld(w)
    ensures var w := ws[|es|];
            var id := ParseId(input.text).value;
            var reply := OnInput(p, w.disk, w.procs[p], c, input).reply;
            && (reply == IsLocked || reply == Shows(w.disk.records[id]))
            && (reply == IsLocked <==>
                exists q, e :: Serves(w, q, e, id) && (w.procs[p].role.WriteServer? || w.procs[q].role.WriteServer?))
  {
    hide ParseId, OnSession, Serial, Booked, Serves, Blocked;
    var w, id := ws[|es|], ParseId(input.text).value;
    BehaviourInv(ws, es);
    ParsedIsUser(input.text);
    RefusedExactly(w, p, id);
  }

  lemma ParsedIsUser(line: string)
    requires ParseId(line).Some?
    ensures IsUser(ParseId(line).value)
  {
  }

  /** The tests of the servers before a session say whether it would clash with another one. */
  lemma RefusedExactly(w: World, p: int, id: int)
    requires LocksAgree(w) && ValidDisk(w.disk) && p in w.procs && ValidProc(w.procs[p]) && IsUser(id)
    requires forall q :: q in w.procs ==> ProcAgrees(w.disk, q, w.procs[q])
    ensures var s := w.procs[p];
            (if s.role.ReadServer? then Blocked(w.disk, p, id, ReadLocked)
             else s.writelock[id] || Blocked(w.disk, p, id, WriteLocked))
            <==> exists q, e :: Serves(w, q, e, id) && (s.role.WriteServer? || w.procs[q].role.WriteServer?)
  {
    var s := w.procs[p];
    var wanted := if s.role.WriteServer? then WriteLocked else ReadLocked;
    assert ProcAgrees(w.disk, p, s) && UserAgrees(w.disk, p, s, id);
    if Blocked(w.disk, p, id, wanted) {
      var k :| k in w.disk.locks && k.0 != p && k.1 == id && !Compatible(w.disk.locks[k], wanted);
      var e := HolderServes(w, k.0, id);
    } else if s.role.WriteServer? && s.writelock[id] {
      var e := HolderServes(w, p, id);
    }
    if q, e :| Serves(w, q, e, id) && (s.role.WriteServer? || w.procs[q].role.WriteServer?) {
      UnlockedMeansNoSession(w.disk, q, w.procs[q], e);
      if q == p {
        assert e in Sessions(s, id);
      } else {
        assert (q, id) in w.disk.locks && !Compatible(w.disk.locks[(q, id)], wanted);
      }
    }
  }

  /** A process that holds a lock on a user has a client for it. */
  lemma HolderServes(w: World, p: int, id: int) returns (c: int)
    requires LocksAgree(w) && LockOf(w.disk, p, id) != Unlocked
    requires forall q :: q in w.procs ==> ProcAgrees(w.disk, q, w.procs[q])
    ensures Serves(w, p, c, id)
    ensures w.procs[p].role.WriteServer? <==> LockOf(w.disk, p, id) == WriteLocked
  {
    assert (p, id) in w.disk.locks;
    assert UserAgrees(w.disk, p, w.procs[p], id);
    assert exists e :: Serves(w, p, e, id) by {
      if forall e :: !Serves(w, p, e, id) {
        forall e ensures e !in Sessions(w.procs[p], id) {
          assert !Serves(w, p, e, id);
        }
      }
    }
    c :| Serves(w, p, c, id);
  }

  lemma {:induction false} LegalHistory(init: map<int, Triple>, log: seq<Commit>, id: int)
    requires (forall i :: IsUser(i) ==> i in init && Legal(init[i])) && Serial(init, log) && IsUser(id)
    requires forall i :: 0 <= i < |log| ==> Moderate(log[i].modi)
    ensures var b := Booked(init, log, id);
            b.0 >= 0 && b.1 >= 0 && b.2 >= 0 && b.0 + b.1 + b.2 <= LIMIT
  {
    hide Decide;
    if log != [] {
      var n := |log| - 1;
      var front, last := log[..n], log[n];
      assert forall i :: 0 <= i < n ==> front[i] == log[i] && front[..i] == log[..i];
      LegalHistory(init, front, id);
      LegalHistory(init, front, last.id);
      AcceptedExactly(last.shown, last.modi);
    }
  }

  /** The limit of 15 items holds in every record after every commit of a run exactly when no
      accepted command asked for more than 15 items of a kind. */
  lemma LimitKeptExactly(ws: seq<World>, es: seq<Event>)
    requires Behaviour(ws, es) && forall id :: IsUser(id) ==> id in ws[0].disk.records && Legal(ws[0].disk.records[id])
    ensures var log := ws[|es|].log;
            (forall i :: 0 <= i < |log| ==> Legal(log[i].stored))
            <==> (forall i :: 0 <= i < |log| ==> Moderate(log[i].modi))
    ensures (forall i :: 0 <= i < |ws[|es|].log| ==> Moderate(ws[|es|].log[i].modi)) ==>
              forall id :: IsUser(id) ==> id in ws[|es|].disk.records && Legal(ws[|es|].disk.records[id])
  {
    hide Decide;
    var init, log := ws[0].disk.records, ws[|es|].log;
    BehaviourInv(ws, es);
    if forall i :: 0 <= i < |log| ==> Moderate(log[i].modi) {
      forall i | 0 <= i < |log| ensures Legal(log[i].stored) {
        PrefixSerial(init, log, i);
        LegalHistory(init, log[..i], log[i].id);
        AcceptedExactly(log[i].shown, log[i].modi);
      }
      forall id | IsUser(id) ensures id in ws[|es|].disk.records && Legal(ws[|es|].disk.records[id]) {
        LegalHistory(init, log, id);
      }
    }
    if forall i :: 0 <= i < |log| ==> Legal(log[i].stored) {
      ModerateUpTo(init, log, |log|);
    }
  }

  lemma PrefixSerial(init: map<int, Triple>, log: seq<Commit>, n: nat)
    requires (forall i :: IsUser(i) ==> i in init) && Serial(init, log) && n <= |log|
    ensures Serial(init, log[..n])
  {
    assert forall i :: 0 <= i < n ==> log[..n][i] == log[i] && log[..n][..i] == log[..i];
  }

  lemma {:induction false} ModerateUpTo(init: map<int, Triple>, log: seq<Commit>, n: nat)
    requires (forall i :: IsUser(i) ==> i in init && Legal(init[i])) && Serial(init, log) && n <= |log|
    requires forall i :: 0 <= i < n ==> Legal(log[i].stored)
    ensures forall i :: 0 <= i < n ==> Moderate(log[i].modi)
  {
    hide Decide, Booked;
    if n > 0 {
      ModerateUpTo(init, log, n - 1);
      PrefixSerial(init, log, n - 1);
      LegalHistory(init, log[..n - 1], log[n - 1].id);
      AcceptedExactly(log[n - 1].shown, log[n - 1].modi);
    }
  }
}
