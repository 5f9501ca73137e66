/** The booking servers with each access to the lock table and to the record file as a step of its own,
    the steps of different servers in any order: every such run does what some run of whole events
    does, so what holds of those holds here. */
module BookingSteps {
  import opened BookingCommand
  import opened BookingModel

  /** Where a server is inside of its event loop.  Between two steps it is at the top of the loop, has
      just been granted a lock, has read the record for a booking command, or has stored or refused
      the booking and is about to unlock. */
  datatype Place =
    | Waiting
    | Granted(c: int, id: int, input: Input)
    | Fetched(c: int, input: Input, modi: Triple, temp: Triple)
    | Decided(c: int, input: Input, modi: Triple, temp: Triple)

  datatype State = State(disk: Disk, procs: map<int, Proc>, places: map<int, Place>, log: seq<Commit>)

  /** A whole event with at most one access, or one access of an event with several. */
  datatype Move =
    | Whole(e: Event)
    | TakeLock(p: int, c: int, input: Input)
    | Show(p: int)
    | Fetch(p: int, c: int, input: Input)
    | Store(p: int)
    | Release(p: int)

  ghost predicate ValidState(f: State)
  {
    && f.procs.Keys == f.places.Keys && ValidDisk(f.disk)
    && forall p :: p in f.procs ==> ValidProc(f.procs[p])
  }

  /** The lock that a client of user id needs is refused. */
  ghost predicate Refused(d: Disk, p: int, s: Proc, id: int)
    requires ValidProc(s) && IsUser(id)
  {
    match s.role
    case ReadServer => Blocked(d, p, id, ReadLocked)
    case WriteServer => s.writelock[id] || Blocked(d, p, id, WriteLocked)
  }

  /** The client names a user, and the lock is granted. */
  ghost predicate Opens(d: Disk, p: int, s: Proc, c: int, input: Input)
    requires ValidProc(s)
  {
    && c in s.conns && s.conns[c].AwaitingId? && input.Line? && ParseId(input.text).Some?
    && !Refused(d, p, s, ParseId(input.text).value)
  }

  /** The client of a write session sends a command in its proper form. */
  ghost predicate Commands(s: Proc, c: int, input: Input)
  {
    && s.role.WriteServer? && c in s.conns && s.conns[c].Session? && input.Line?
    && ParseCommand(input.text, input.prior, input.overflow).Some?
  }

  /** The lock is set when it is granted; the session is entered in the tables when the record has
      been read. */
  ghost function Opened(s: Proc, c: int, id: int, shown: Triple): Proc
    requires ValidProc(s) && IsUser(id)
  {
    match s.role
    case ReadServer => Open(s.(readlock := s.readlock[id := s.readlock[id] + 1]), c, id, shown)
    case WriteServer => Open(s.(writelock := s.writelock[id := true]), c, id, shown)
  }

  ghost predicate MayMove(f: State, m: Move)
  {
    && ValidState(f)
    && match m
       case Whole(e) =>
         && e.p in f.procs && f.places[e.p].Waiting?
         && Enabled(World(f.disk, f.procs, f.log), e)
         && (e.Receive? ==> !Opens(f.disk, e.p, f.procs[e.p], e.c, e.input) && !Commands(f.procs[e.p], e.c, e.input))
       case TakeLock(p, c, input) =>
         p in f.procs && f.places[p].Waiting? && Opens(f.disk, p, f.procs[p], c, input)
       case Show(p) => p in f.procs && f.places[p].Granted? && IsUser(f.places[p].id)
       case Fetch(p, c, input) => p in f.procs && f.places[p].Waiting? && Commands(f.procs[p], c, input)
       case Store(p) => p in f.procs && f.places[p].Fetched? && InSession(f.procs[p], f.places[p].c)
       case Release(p) => p in f.procs && f.places[p].Decided? && InSession(f.procs[p], f.places[p].c)
  }

  ghost predicate InSession(s: Proc, c: int)
  {
    c in s.conns && s.conns[c].Session?
  }

  ghost function After(f: State, m: Move): State
    requires MayMove(f, m)
  {
    match m
    case Whole(e) =>
      var w := Next(World(f.disk, f.procs, f.log), e);
      State(w.disk, w.procs, f.places, w.log)
    case TakeLock(p, c, input) =>
      var id := ParseId(input.text).value;
      var lock := if f.procs[p].role.ReadServer? then ReadLocked else WriteLocked;
      f.(disk := SetLock(f.disk, p, id, lock), places := f.places[p := Granted(c, id, input)])
    case Show(p) =>
      var at := f.places[p];
      f.(procs := f.procs[p := Opened(f.procs[p], at.c, at.id, f.disk.records[at.id])],
         places := f.places[p := Waiting])
    case Fetch(p, c, input) =>
      var modi := ParseCommand(input.text, input.prior, input.overflow).value;
      f.(places := f.places[p := Fetched(c, input, modi, f.disk.records[f.procs[p].conns[c].id])])
    case Store(p) =>
      var at := f.places[p];
      var verdict := Decide(at.temp, at.modi);
      var id := f.procs[p].conns[at.c].id;
      f.(disk := if verdict.Accepted? then f.disk.(records := f.disk.records[id := verdict.booking]) else f.disk,
         places := f.places[p := Decided(at.c, at.input, at.modi, at.temp)])
    case Release(p) =>
      var at := f.places[p];
      var verdict := Decide(at.temp, at.modi);
      var id := f.procs[p].conns[at.c].id;
      var r := StopWriting(p, f.disk, f.procs[p], at.c, id, Silent);
      State(r.disk, f.procs[p := r.proc], f.places[p := Waiting],
            f.log + if verdict.Accepted? then [Commit(id, at.temp, at.modi, verdict.booking)] else [])
  }

  // ----- the run of whole events behind a run of steps

  /** The server has stored a booking for user id and has not unlocked yet. */
  ghost predicate Stored(f: State, p: int, id: int)
  {
    && p in f.procs && p in f.places && f.places[p].Decided? && InSession(f.procs[p], f.places[p].c)
    && f.procs[p].conns[f.places[p].c].id == id && Decide(f.places[p].temp, f.places[p].modi).Accepted?
  }

  /** State f has got through the events that led to w: a session counts from the lock on, a command
      from the unlocking on. */
  ghost predicate Follows(f: State, w: World)
  {
    && ValidState(f) && ValidWorld(w) && f.procs.Keys == w.procs.Keys
    && f.log == w.log && f.disk.locks == w.disk.locks
    && (forall p :: p in f.procs ==> ProcFollows(f, w, p))
    && (forall id :: IsUser(id) ==> RecordFollows(f, w, id))
  }

  ghost predicate ProcFollows(f: State, w: World, p: int)
    requires ValidState(f) && ValidWorld(w) && f.procs.Keys == w.procs.Keys && p in f.procs
  {
    match f.places[p]
    case Waiting => f.procs[p] == w.procs[p]
    case Granted(c, id, input) =>
      && IsUser(id) && c in f.procs[p].conns && f.procs[p].conns[c].AwaitingId?
      && w.procs[p] == Opened(f.procs[p], c, id, w.disk.records[id])
    case Fetched(c, input, modi, temp) => f.procs[p] == w.procs[p] && Commanding(w, p, c, input, modi, temp)
    case Decided(c, input, modi, temp) => f.procs[p] == w.procs[p] && Commanding(w, p, c, input, modi, temp)
  }

  /** The command was made on the booking that the record holds and that the client has been shown. */
  ghost predicate Commanding(w: World, p: int, c: int, input: Input, modi: Triple, temp: Triple)
    requires ValidWorld(w) && p in w.procs
  {
    && Commands(w.procs[p], c, input) && ParseCommand(input.text, input.prior, input.overflow) == Some(modi)
    && temp == w.disk.records[w.procs[p].conns[c].id] == w.procs[p].conns[c].shown
  }

  ghost predicate RecordFollows(f: State, w: World, id: int)
    requires ValidDisk(f.disk) && ValidDisk(w.disk) && IsUser(id)
  {
    && (forall p :: Stored(f, p, id) ==> f.disk.records[id] == Decide(f.places[p].temp, f.places[p].modi).booking)
    && ((forall p :: !Stored(f, p, id)) ==> f.disk.records[id] == w.disk.records[id])
  }

  /** The client of another server is served for that user: then nobody has a booking for it under way. */
  lemma NobodyStores(init: map<int, Triple>, f: State, w: World, p: int, c: int, q: int)
    requires (forall id :: IsUser(id) ==> id in init) && Inv(init, w) && Follows(f, w)
    requires p in w.procs && InSession(w.procs[p], c) && q != p
    ensures !Stored(f, q, w.procs[p].conns[c].id)
  {
    var id := w.procs[p].conns[c].id;
    if Stored(f, q, id) {
      assert ProcFollows(f, w, q);
      var e := f.places[q].c;
      assert ProcAgrees(w.disk, q, w.procs[q]) && ProcAgrees(w.disk, p, w.procs[p]);
      UnlockedMeansNoSession(w.disk, q, w.procs[q], e);
      UnlockedMeansNoSession(w.disk, p, w.procs[p], c);
      NoWriterElsewhere(w, q, p, id);
    }
  }

  /** What a whole event of at most one access does depends on the locks only. */
  lemma OneAccess(d: Disk, d': Disk, p: int, s: Proc, c: int, input: Input)
    requires ValidDisk(d) && ValidDisk(d') && ValidProc(s) && c in s.conns && d.locks == d'.locks
    requires !Opens(d, p, s, c, input) && !Commands(s, c, input)
    ensures var r, r' := OnInput(p, d, s, c, input), OnInput(p, d', s, c, input);
            && r.proc == r'.proc && r.disk.locks == r'.disk.locks
            && r.disk.records == d.records && r'.disk.records == d'.records && !r.reply.Updated? && !r'.reply.Updated?
  {
    hide ParseId, ParseCommand, Decide;
  }

  lemma WholeFollows(init: map<int, Triple>, f: State, w: World, e: Event)
    requires (forall id :: IsUser(id) ==> id in init) && Inv(init, w) && Follows(f, w) && MayMove(f, Whole(e))
    ensures Enabled(w, e) && Follows(After(f, Whole(e)), Next(w, e))
  {
    hide OnInput, Inv, Opens, Commands;
    var f', w' := After(f, Whole(e)), Next(w, e);
    assert ProcFollows(f, w, e.p);
    if e.Receive? {
      OneAccess(f.disk, w.disk, e.p, f.procs[e.p], e.c, e.input);
      SameValid(e.p, f.disk, f.procs[e.p], e.c, e.input);
    }
    assert f'.disk.records == f.disk.records && w'.disk.records == w.disk.records && f'.places == f.places;
    OthersFollow(f, w, f', w', e.p);
    forall id | IsUser(id) ensures RecordFollows(f', w', id) {
      assert RecordFollows(f, w, id);
      forall q ensures Stored(f', q, id) == Stored(f, q, id) {
      }
    }
  }

  lemma SameValid(p: int, d: Disk, s: Proc, c: int, input: Input)
    requires ValidDisk(d) && ValidProc(s) && c in s.conns
    ensures ValidProc(OnInput(p, d, s, c, input).proc)
  {
    hide ParseCommand, Decide;
  }

  /** What one server does leaves the others where they are, if it changes no record that they use. */
  lemma OthersFollow(f: State, w: World, f': State, w': World, p: int)
    requires Follows(f, w) && p in f.procs && ValidState(f') && ValidWorld(w')
    requires f'.procs.Keys == w'.procs.Keys == f.procs.Keys
    requires forall q :: q in f.procs && q != p ==>
               f'.procs[q] == f.procs[q] && w'.procs[q] == w.procs[q] && f'.places[q] == f.places[q]
    requires forall q, id :: q in f.procs && q != p && Uses(w, q, id) ==> w'.disk.records[id] == w.disk.records[id]
    ensures forall q :: q in f.procs && q != p ==> ProcFollows(f', w', q)
  {
    hide Opened, Commands, ParseCommand;
    forall q | q in f.procs && q != p ensures ProcFollows(f', w', q) {
      assert ProcFollows(f, w, q);
      match f.places[q]
      case Waiting =>
      case Granted(c, id, input) => assert Uses(w, q, id) by { OpenedUses(f.procs[q], c, id, w.disk.records[id]); }
      case Fetched(c, input, modi, temp) => CommandUses(w, q, c, input);
      case Decided(c, input, modi, temp) => CommandUses(w, q, c, input);
    }
  }

  ghost predicate Uses(w: World, q: int, id: int)
  {
    IsUser(id) && q in w.procs && exists c :: InSession(w.procs[q], c) && w.procs[q].conns[c].id == id
  }

  lemma OpenedUses(s: Proc, c: int, id: int, shown: Triple)
    requires ValidProc(s) && IsUser(id)
    ensures var s' := Opened(s, c, id, shown); InSession(s', c) && s'.conns[c].id == id
  {
  }

  lemma CommandUses(w: World, q: int, c: int, input: Input)
    requires ValidWorld(w) && q in w.procs && Commands(w.procs[q], c, input)
    ensures Uses(w, q, w.procs[q].conns[c].id)
  {
    hide ParseCommand;
    assert InSession(w.procs[q], c);
  }

  lemma TakeLockFollows(init: map<int, Triple>, f: State, w: World, p: int, c: int, input: Input)
    requires (forall id :: IsUser(id) ==> id in init) && Inv(init, w) && Follows(f, w)
    requires MayMove(f, TakeLock(p, c, input))
    ensures Enabled(w, Receive(p, c, input))
    ensures Follows(After(f, TakeLock(p, c, input)), Next(w, Receive(p, c, input)))
  {
    hide Inv, ParseCommand, ParseId;
    var m, e := TakeLock(p, c, input), Receive(p, c, input);
    var f', w' := After(f, m), Next(w, e);
    var id := ParseId(input.text).value;
    assert ProcFollows(f, w, p);
    assert w'.procs[p] == Opened(w.procs[p], c, id, w.disk.records[id]) && w'.disk.records == w.disk.records;
    assert w'.log == w.log;
    OthersFollow(f, w, f', w', p);
    SameRecords(f, w, f', w', p);
  }

  /** No record changes, and server p has stored no booking before and after. */
  lemma SameRecords(f: State, w: World, f': State, w': World, p: int)
    requires Follows(f, w) && ValidState(f') && ValidWorld(w') && p in f.procs && f'.procs.Keys == f.procs.Keys
    requires f'.disk.records == f.disk.records && w'.disk.records == w.disk.records
    requires !f.places[p].Decided? && !f'.places[p].Decided?
    requires forall q :: q in f.procs && q != p ==> f'.procs[q] == f.procs[q] && f'.places[q] == f.places[q]
    ensures forall id :: IsUser(id) ==> RecordFollows(f', w', id)
  {
    hide Decide;
    forall id | IsUser(id) ensures RecordFollows(f', w', id) {
      assert RecordFollows(f, w, id);
      forall q ensures Stored(f', q, id) == Stored(f, q, id) {
      }
    }
  }

  /** A server that does not store finds the record as the events so far have left it. */
  lemma ReadsCurrent(init: map<int, Triple>, f: State, w: World, p: int, c: int)
    requires (forall id :: IsUser(id) ==> id in init) && Inv(init, w) && Follows(f, w)
    requires p in w.procs && InSession(w.procs[p], c) && !f.places[p].Decided?
    ensures var id := w.procs[p].conns[c].id; f.disk.records[id] == w.disk.records[id] == w.procs[p].conns[c].shown
  {
    hide Decide;
    var id := w.procs[p].conns[c].id;
    assert ProcAgrees(w.disk, p, w.procs[p]);
    assert RecordFollows(f, w, id);
    forall q ensures !Stored(f, q, id) {
      if q != p {
        NobodyStores(init, f, w, p, c, q);
      }
    }
  }

  lemma ShowFollows(init: map<int, Triple>, f: State, w: World, p: int)
    requires (forall id :: IsUser(id) ==> id in init) && Inv(init, w) && Follows(f, w) && MayMove(f, Show(p))
    ensures Follows(After(f, Show(p)), w)
  {
    hide Inv, Decide;
    var f', at := After(f, Show(p)), f.places[p];
    assert ProcFollows(f, w, p);
    OpenedUses(f.procs[p], at.c, at.id, w.disk.records[at.id]);
    ReadsCurrent(init, f, w, p, at.c);
    OthersFollow(f, w, f', w, p);
    SameRecords(f, w, f', w, p);
  }

  lemma FetchFollows(init: map<int, Triple>, f: State, w: World, p: int, c: int, input: Input)
    requires (forall id :: IsUser(id) ==> id in init) && Inv(init, w) && Follows(f, w) && MayMove(f, Fetch(p, c, input))
    ensures Follows(After(f, Fetch(p, c, input)), w)
  {
    hide Inv, Decide, ParseCommand;
    var f' := After(f, Fetch(p, c, input));
    assert ProcFollows(f, w, p);
    ReadsCurrent(init, f, w, p, c);
    OthersFollow(f, w, f', w, p);
    SameRecords(f, w, f', w, p);
  }

  lemma StoreFollows(init: map<int, Triple>, f: State, w: World, p: int)
    requires (forall id :: IsUser(id) ==> id in init) && Inv(init, w) && Follows(f, w) && MayMove(f, Store(p))
    ensures Follows(After(f, Store(p)), w)
  {
    hide Inv, Decide, ParseCommand;
    var f', at := After(f, Store(p)), f.places[p];
    assert ProcFollows(f, w, p);
    OthersFollow(f, w, f', w, p);
    StoredRecords(init, f, w, p);
  }

  lemma StoredRecords(init: map<int, Triple>, f: State, w: World, p: int)
    requires (forall id :: IsUser(id) ==> id in init) && Inv(init, w) && Follows(f, w) && MayMove(f, Store(p))
    ensures ValidState(After(f, Store(p)))
    ensures forall id :: IsUser(id) ==> RecordFollows(After(f, Store(p)), w, id)
  {
    hide Inv, Decide, ParseCommand, ProcFollows;
    var f', at := After(f, Store(p)), f.places[p];
    var mine, accepted := f.procs[p].conns[at.c].id, Decide(at.temp, at.modi).Accepted?;
    assert ProcFollows(f, w, p);
    Fetching(f, w, p);
    forall id | IsUser(id) ensures RecordFollows(f', w, id) {
      assert RecordFollows(f, w, id);
      assert !Stored(f, p, id) && (Stored(f', p, id) <==> id == mine && accepted);
      forall q | q != p ensures Stored(f', q, id) == Stored(f, q, id) && (id == mine ==> !Stored(f, q, id)) {
        NobodyStores(init, f, w, p, at.c, q);
      }
      assert id == mine && !accepted ==> forall q :: !Stored(f, q, id);
    }
  }

  lemma Fetching(f: State, w: World, p: int)
    requires Follows(f, w) && p in f.procs && ProcFollows(f, w, p) && f.places[p].Fetched?
    ensures w.procs[p] == f.procs[p]
  {
  }

  lemma NobodyUses(init: map<int, Triple>, f: State, w: World, p: int, mine: int)
    requires (forall id :: IsUser(id) ==> id in init) && Inv(init, w) && Follows(f, w) && Stored(f, p, mine)
    ensures forall q :: q != p ==> !Uses(w, q, mine)
  {
    hide Inv, Follows, Stored;
    forall q | q != p ensures !Uses(w, q, mine) {
      if Uses(w, q, mine) {
        var c :| InSession(w.procs[q], c) && w.procs[q].conns[c].id == mine;
        NobodyStores(init, f, w, q, c, p);
      }
    }
  }

  lemma ReleaseFollows(init: map<int, Triple>, f: State, w: World, p: int)
    requires (forall id :: IsUser(id) ==> id in init) && Inv(init, w) && Follows(f, w) && MayMove(f, Release(p))
    ensures var at := f.places[p];
            Enabled(w, Receive(p, at.c, at.input))
            && Follows(After(f, Release(p)), Next(w, Receive(p, at.c, at.input)))
  {
    hide Inv, Decide, ParseCommand, RecordFollows;
    ReleaseIsEvent(f, w, p);
    var at := f.places[p];
    var f', w' := After(f, Release(p)), Next(w, Receive(p, at.c, at.input));
    var mine := f.procs[p].conns[at.c].id;
    if Decide(at.temp, at.modi).Accepted? {
      assert Stored(f, p, mine);
      NobodyUses(init, f, w, p, mine);
    }
    OthersFollow(f, w, f', w', p);
    ReleasedRecords(init, f, w, f', w', p);
  }

  /** For server p itself, unlocking is the event that its command was. */
  lemma ReleaseIsEvent(f: State, w: World, p: int)
    requires Follows(f, w) && MayMove(f, Release(p))
    ensures var at := f.places[p];
            var e := Receive(p, at.c, at.input);
            Enabled(w, e) &&
            var f', w' := After(f, Release(p)), Next(w, e);
            var verdict, mine := Decide(at.temp, at.modi), f.procs[p].conns[at.c].id;
            && ValidState(f') && ValidWorld(w') && f'.procs.Keys == w'.procs.Keys
            && f'.procs[p] == w'.procs[p] && f'.log == w'.log && f'.disk.locks == w'.disk.locks
            && w'.disk.records == if verdict.Accepted? then w.disk.records[mine := verdict.booking] else w.disk.records
  {
    hide Decide, ParseCommand, RecordFollows;
    assert ProcFollows(f, w, p);
  }

  lemma ReleasedRecords(init: map<int, Triple>, f: State, w: World, f': State, w': World, p: int)
    requires (forall id :: IsUser(id) ==> id in init) && Inv(init, w) && Follows(f, w) && MayMove(f, Release(p))
    requires f' == After(f, Release(p)) && ValidDisk(w'.disk) && ValidState(f')
    requires var verdict, mine := Decide(f.places[p].temp, f.places[p].modi), f.procs[p].conns[f.places[p].c].id;
             w'.disk.records == if verdict.Accepted? then w.disk.records[mine := verdict.booking] else w.disk.records
    ensures forall id :: IsUser(id) ==> RecordFollows(f', w', id)
  {
    hide Inv, Decide, ParseCommand, ProcFollows;
    var at := f.places[p];
    var mine := f.procs[p].conns[at.c].id;
    assert f'.disk.records == f.disk.records;
    assert ProcFollows(f, w, p);
    Deciding(f, w, p);
    forall id | IsUser(id) ensures RecordFollows(f', w', id) {
      assert RecordFollows(f, w, id);
      assert !Stored(f', p, id);
      assert Stored(f, p, id) <==> id == mine && Decide(at.temp, at.modi).Accepted?;
      forall q | q != p ensures Stored(f', q, id) == Stored(f, q, id) && (id == mine ==> !Stored(f, q, id)) {
        NobodyStores(init, f, w, p, at.c, q);
      }
    }
  }

  lemma Deciding(f: State, w: World, p: int)
    requires Follows(f, w) && p in f.procs && ProcFollows(f, w, p) && f.places[p].Decided?
    ensures w.procs[p] == f.procs[p]
  {
  }

  // ----- whole runs

  ghost function Start(f: State): World
  {
    World(f.disk, f.procs, f.log)
  }

  /** A run of steps from servers without connections, all at the top of their loops. */
  ghost predicate Steps(fs: seq<State>, ms: seq<Move>)
  {
    && |fs| == |ms| + 1
    && ValidState(fs[0]) && Initial(Start(fs[0])) && (forall p :: p in fs[0].places ==> fs[0].places[p].Waiting?)
    && forall i :: 0 <= i < |ms| ==> MayMove(fs[i], ms[i]) && fs[i + 1] == After(fs[i], ms[i])
  }

  /** The whole event that a step completes, or at which it counts. */
  ghost function EventOf(f: State, m: Move): seq<Event>
    requires MayMove(f, m)
  {
    match m
    case Whole(e) => [e]
    case TakeLock(p, c, input) => [Receive(p, c, input)]
    case Release(p) => [Receive(p, f.places[p].c, f.places[p].input)]
    case _ => []
  }

  lemma MoveFollows(init: map<int, Triple>, f: State, w: World, m: Move)
    requires (forall id :: IsUser(id) ==> id in init) && Inv(init, w) && Follows(f, w) && MayMove(f, m)
    ensures var es := EventOf(f, m);
            if es == [] then Follows(After(f, m), w) else Enabled(w, es[0]) && Follows(After(f, m), Next(w, es[0]))
  {
    hide Inv, Follows, MayMove, After, Next, Enabled;
    match m
    case Whole(e) => WholeFollows(init, f, w, e);
    case TakeLock(p, c, input) => TakeLockFollows(init, f, w, p, c, input);
    case Show(p) => ShowFollows(init, f, w, p);
    case Fetch(p, c, input) => FetchFollows(init, f, w, p, c, input);
    case Store(p) => StoreFollows(init, f, w, p);
    case Release(p) => ReleaseFollows(init, f, w, p);
  }

  lemma StartFollows(f: State)
    requires ValidState(f) && Initial(Start(f)) && forall p :: p in f.places ==> f.places[p].Waiting?
    ensures Follows(f, Start(f))
  {
  }

  /** Every run of steps follows a run of whole events. */
  lemma {:induction false} StepsSerialize(fs: seq<State>, ms: seq<Move>) returns (ws: seq<World>, es: seq<Event>)
    requires Steps(fs, ms)
    ensures |fs| == |ms| + 1 && Behaviour(ws, es) && ws[0] == Start(fs[0]) && Follows(fs[|ms|], ws[|es|])
  {
    hide Inv, Follows, MayMove, After, Next, Enabled, Initial, ValidState;
    var n := |ms|;
    if n == 0 {
      ws, es := [Start(fs[0])], [];
      StartFollows(fs[0]);
    } else {
      var vs, ds := StepsSerialize(fs[..n], ms[..n - 1]);
      var f, m := fs[n - 1], ms[n - 1];
      assert MayMove(f, m);
      BehaviourInv(vs, ds);
      InitialUsers(vs[0]);
      MoveFollows(vs[0].disk.records, f, vs[|ds|], m);
      es := ds + EventOf(f, m);
      ws := if EventOf(f, m) == [] then vs else vs + [Next(vs[|ds|], EventOf(f, m)[0])];
    }
  }

  lemma InitialUsers(w: World)
    requires Initial(w)
    ensures forall id :: IsUser(id) ==> id in w.disk.records
  {
  }

  /** The client of connection c of server p has been granted the lock for user id, or is in a session
      for it. */
  ghost predicate Served(f: State, p: int, c: int, id: int)
  {
    && p in f.procs && p in f.places
    && ((InSession(f.procs[p], c) && f.procs[p].conns[c].id == id)
        || (f.places[p].Granted? && f.places[p].c == c && f.places[p].id == id))
  }

  lemma ServedThere(f: State, w: World, p: int, c: int, id: int)
    requires Follows(f, w) && Served(f, p, c, id)
    ensures Serves(w, p, c, id) && w.procs[p].role == f.procs[p].role
  {
    assert ProcFollows(f, w, p);
    hide ParseCommand;
  }

  /** Two clients of one user are served at the same time only if both are readers, between any two
      steps of any servers. */
  lemma StepsExclude(fs: seq<State>, ms: seq<Move>, p: int, c: int, q: int, e: int, id: int)
    requires Steps(fs, ms) && (p, c) != (q, e)
    requires Served(fs[|ms|], p, c, id) && Served(fs[|ms|], q, e, id)
    ensures fs[|ms|].procs[p].role.ReadServer? && fs[|ms|].procs[q].role.ReadServer?
  {
    hide Follows, Steps, Serves, Served;
    var ws, es := StepsSerialize(fs, ms);
    ServedThere(fs[|ms|], ws[|es|], p, c, id);
    ServedThere(fs[|ms|], ws[|es|], q, e, id);
    MutualExclusion(ws, es, p, c, q, e, id);
  }

  /** Between any two steps: the history is serial, where each entry has the booking that was really
      read and the one that was really stored; every record is what the history leaves, or what a
      command has just stored on top of that; and one server only can be about to enter such a
      command. */
  lemma StepsAreSerial(fs: seq<State>, ms: seq<Move>, id: int)
    requires Steps(fs, ms) && IsUser(id)
    ensures (forall i :: IsUser(i) ==> i in fs[0].disk.records) && id in fs[|ms|].disk.records
    ensures Serial(fs[0].disk.records, fs[|ms|].log)
    ensures var f, booked := fs[|ms|], Booked(fs[0].disk.records, fs[|ms|].log, id);
            && ((forall p :: !Stored(f, p, id)) ==> Equals(f.disk.records[id], booked))
            && forall p :: Stored(f, p, id) ==>
                 && Equals(f.places[p].temp, booked)
                 && f.disk.records[id] == Decide(f.places[p].temp, f.places[p].modi).booking
                 && forall q :: Stored(f, q, id) ==> q == p
  {
    hide Steps, Decide;
    var ws, es := StepsSerialize(fs, ms);
    var f, w := fs[|ms|], ws[|es|];
    BookingsSerial(ws, es, id);
    BehaviourInv(ws, es);
    assert RecordFollows(f, w, id);
    forall p | Stored(f, p, id)
      ensures f.places[p].temp == w.disk.records[id] && forall q :: Stored(f, q, id) ==> q == p
    {
      assert ProcFollows(f, w, p);
      forall q | Stored(f, q, id) ensures q == p {
        if q != p {
          NobodyStores(ws[0].disk.records, f, w, p, f.places[p].c, q);
        }
      }
    }
  }

  /** What a client has been shown, or is about to be shown, is the record, for as long as it is served;
      but for the one whose own command has been stored. */
  lemma StepsShowCurrent(fs: seq<State>, ms: seq<Move>, p: int, c: int, id: int)
    requires Steps(fs, ms) && Served(fs[|ms|], p, c, id) && !Stored(fs[|ms|], p, id)
    ensures var f := fs[|ms|];
            && id in fs[0].disk.records && id in f.disk.records
            && (InSession(f.procs[p], c) ==> f.procs[p].conns[c].shown == f.disk.records[id])
            && Equals(f.disk.records[id], Booked(fs[0].disk.records, f.log, id))
  {
    hide Steps, Decide, ParseCommand;
    var ws, es := StepsSerialize(fs, ms);
    var f, w := fs[|ms|], ws[|es|];
    ServedThere(f, w, p, c, id);
    ShownIsCurrent(ws, es, p, c, id);
    BehaviourInv(ws, es);
    assert ProcFollows(f, w, p) && RecordFollows(f, w, id);
    forall q ensures !Stored(f, q, id) {
      if q != p {
        NobodyStores(ws[0].disk.records, f, w, p, c, q);
      }
    }
  }
}
