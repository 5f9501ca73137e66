/** One booking server: the event loop's handling of one connection, over the tables that the server
    keeps per descriptor and per user, and the record file that all servers share. */
module BookingServer {
  import opened BookingCommand
  import opened BookingModel

  /** The record file with its advisory locks. */
  class RecordFile {
    var records: map<int, Triple>
    var locks: map<(int, int), Lock>

    ghost function Contents(): Disk
      reads this
    {
      Disk(records, locks)
    }

    constructor (records: map<int, Triple>)
      ensures Contents() == Disk(records, map[])
    {
      this.records := records;
      locks := map[];
    }

    /** lock_reg: F_SETLK refuses a lock that another process excludes; F_UNLCK is never refused. */
    method LockRegion(pid: int, lock: Lock, id: int) returns (granted: bool)
      modifies this
      ensures granted <==> !Blocked(old(Contents()), pid, id, lock)
      ensures Contents() == if granted then SetLock(old(Contents()), pid, id, lock) else old(Contents())
    {
      granted := !Blocked(Disk(records, locks), pid, id, lock);
      if granted {
        locks := locks[(pid, id) := lock];
      }
    }

    method Unlock(pid: int, id: int)
      modifies this
      ensures Contents() == SetLock(old(Contents()), pid, id, Unlocked)
    {
      var granted := LockRegion(pid, Unlocked, id);
    }

    method Write(id: int, booking: Triple)
      modifies this
      ensures Contents() == old(Contents()).(records := old(records)[id := booking])
    {
      records := records[id := booking];
    }
  }

  class Server {
    const pid: int
    const role: Role
    const maxfd: nat
    const connected: array<bool>      // the descriptors in master_set
    const id: array<int>              // requestP[].id
    const waitForWrite: array<bool>   // requestP[].wait_for_write
    const writelock: array<bool>
    const readlock: array<int>
    ghost var state: Proc

    ghost predicate Valid()
      reads this, connected, id, waitForWrite, writelock, readlock
    {
      && connected.Length == id.Length == waitForWrite.Length == maxfd
      && writelock.Length == readlock.Length == SLOTS
      && connected != waitForWrite && connected != writelock && waitForWrite != writelock && id != readlock
      && ValidProc(state)
      && state.role == role && state.writelock == writelock[..] && state.readlock == readlock[..]
      && (forall c :: c in state.conns ==> 0 <= c < maxfd)
      && (forall c :: 0 <= c < maxfd ==>
            && (c in state.conns <==> connected[c])
            && (waitForWrite[c] <==> c in state.conns && state.conns[c].Session?)
            && (waitForWrite[c] ==> id[c] == USER_BASE + state.conns[c].id))
    }

    constructor (pid: int, role: Role, maxfd: nat)
      ensures Valid() && this.pid == pid && this.role == role && this.maxfd == maxfd
      ensures state == Proc(role, seq(SLOTS, i => false), seq(SLOTS, i => 0), map[])
    {
      this.pid, this.role, this.maxfd := pid, role, maxfd;
      connected := new bool[maxfd](i => false);
      id := new int[maxfd](i => 0);
      waitForWrite := new bool[maxfd](i => false);
      writelock := new bool[SLOTS](i => false);
      readlock := new int[SLOTS](i => 0);
      state := Proc(role, seq(SLOTS, i => false), seq(SLOTS, i => 0), map[]);
    }

    method AcceptConnection(c: nat)
      requires Valid() && c < maxfd && c !in state.conns
      modifies `state, connected
      ensures Valid() && state == OnAccept(old(state), c)
    {
      connected[c] := true;
      state := OnAccept(state, c);
    }

    method EndConnection(c: nat)
      requires Valid() && c < maxfd
      modifies `state, connected, id, waitForWrite
      ensures Valid() && state == Close(old(state), c)
    {
      connected[c] := false;
      id[c] := 0;
      waitForWrite[c] := false;
      state := Close(state, c);
    }

    /** The client of an accepted connection has named its user. */
    method BeginSession(c: nat, user: int, ghost shown: Triple)
      requires Valid() && c < maxfd && c in state.conns && IsUser(user)
      modifies `state, id, waitForWrite
      ensures Valid() && state == Open(old(state), c, user, shown)
    {
      id[c] := USER_BASE + user;
      waitForWrite[c] := true;
      state := Open(state, c, user, shown);
    }

    method SetWriteLock(user: int, held: bool)
      requires Valid() && IsUser(user)
      modifies `state, writelock
      ensures Valid() && state == old(state).(writelock := old(state).writelock[user := held])
    {
      writelock[user] := held;
      state := state.(writelock := state.writelock[user := held]);
    }

    method AddReaders(user: int, n: int)
      requires Valid() && IsUser(user)
      modifies `state, readlock
      ensures Valid() && state == old(state).(readlock := old(state).readlock[user := old(state).readlock[user] + n])
    {
      readlock[user] := readlock[user] + n;
      state := state.(readlock := state.readlock[user := readlock[user]]);
    }

    /** The loop over the characters of an id line, and the range check. */
    method CheckId(line: string) returns (r: Option<int>)
      ensures r == ParseId(line)
    {
      var valid := true;
      for j := 0 to |line|
        invariant valid && forall i :: 0 <= i < j ==> IsDigit(line[i])
      {
        if IsDigit(line[j]) {
          valid := true;
        } else {
          valid := false;
          break;
        }
      }
      r := None;
      if valid {
        var user := ScanDigits(line, 0).0 - USER_BASE;
        if !(user < 1 || user > USERS) {
          r := Some(user);
        }
      }
    }

    /** A line, or the end, of a connection whose client has not named a user yet. */
    method HandleId(c: nat, input: Input, file: RecordFile) returns (reply: Reply)
      requires Valid() && c < maxfd && c in state.conns && ValidDisk(file.Contents())
      modifies `state, connected, id, waitForWrite, writelock, readlock, file
      ensures Valid()
      ensures Effect(file.Contents(), state, reply) == OnId(pid, old(file.Contents()), old(state), c, input)
    {
      hide ParseId, Blocked;
      if input.Hangup? {
        EndConnection(c);
        return Silent;
      }
      var r := CheckId(input.text);
      if r.None? {
        EndConnection(c);
        return Failed;
      }
      var user := r.value;
      if role.ReadServer? {
        reply := BeginReading(c, user, file);
      } else {
        reply := BeginWriting(c, user, file);
      }
    }

    method BeginReading(c: nat, user: int, file: RecordFile) returns (reply: Reply)
      requires Valid() && c < maxfd && c in state.conns && ValidDisk(file.Contents()) && IsUser(user)
      modifies `state, connected, id, waitForWrite, readlock, file
      ensures Valid()
      ensures Effect(file.Contents(), state, reply) == StartReading(pid, old(file.Contents()), old(state), c, user)
    {
      hide Blocked;
      var granted := file.LockRegion(pid, ReadLocked, user);
      if !granted {
        EndConnection(c);
        return IsLocked;
      }
      AddReaders(user, 1);
      var temp := file.records[user];
      BeginSession(c, user, temp);
      reply := Shows(temp);
    }

    method BeginWriting(c: nat, user: int, file: RecordFile) returns (reply: Reply)
      requires Valid() && c < maxfd && c in state.conns && ValidDisk(file.Contents()) && IsUser(user)
      modifies `state, connected, id, waitForWrite, writelock, file
      ensures Valid()
      ensures Effect(file.Contents(), state, reply) == StartWriting(pid, old(file.Contents()), old(state), c, user)
    {
      hide Blocked;
      var granted := false;
      if !writelock[user] {
        granted := file.LockRegion(pid, WriteLocked, user);
      }
      if !granted {
        EndConnection(c);
        return IsLocked;
      }
      SetWriteLock(user, true);
      var temp := file.records[user];
      BeginSession(c, user, temp);
      reply := Shows(temp);
    }

    method EndReading(c: nat, user: int, file: RecordFile)
      requires Valid() && c < maxfd && c in state.conns && ValidDisk(file.Contents()) && IsUser(user)
      modifies `state, connected, id, waitForWrite, readlock, file
      ensures Valid()
      ensures Effect(file.Contents(), state, Silent)
           == StopReading(pid, old(file.Contents()), old(state), c, user, Silent)
    {
      AddReaders(user, -1);
      if readlock[user] == 0 {
        file.Unlock(pid, user);
      }
      EndConnection(c);
    }

    method EndWriting(c: nat, user: int, file: RecordFile, ghost reply: Reply)
      requires Valid() && c < maxfd && c in state.conns && ValidDisk(file.Contents()) && IsUser(user)
      modifies `state, connected, id, waitForWrite, writelock, file
      ensures Valid()
      ensures Effect(file.Contents(), state, reply)
           == StopWriting(pid, old(file.Contents()), old(state), c, user, reply)
    {
      file.Unlock(pid, user);
      SetWriteLock(user, false);
      EndConnection(c);
    }

    /** A line, or the end, of a connection whose client has named its user. */
    method HandleSession(c: nat, input: Input, file: RecordFile) returns (reply: Reply)
      requires Valid() && c < maxfd && c in state.conns && state.conns[c].Session? && ValidDisk(file.Contents())
      modifies `state, connected, id, waitForWrite, writelock, readlock, file
      ensures Valid()
      ensures Effect(file.Contents(), state, reply)
           == OnSession(pid, old(file.Contents()), old(state), c, old(state).conns[c].id, input)
    {
      hide ParseCommand;
      var user := id[c] - USER_BASE;
      if role.ReadServer? {
        reply := Silent;
        if input.Hangup? || input.text == "Exit" {
          EndReading(c, user, file);
        }
      } else if input.Hangup? {
        reply := Silent;
        EndWriting(c, user, file, reply);
      } else {
        reply := Book(c, user, input.text, input.prior, input.overflow, file);
      }
    }

    /** A booking command: scanned, printed back and compared, checked and stored. */
    method Book(c: nat, user: int, line: string, prior: Triple, overflow: int -> Int32, file: RecordFile)
        returns (reply: Reply)
      requires Valid() && c < maxfd && c in state.conns && ValidDisk(file.Contents()) && IsUser(user)
      requires role.WriteServer?
      modifies `state, connected, id, waitForWrite, writelock, file
      ensures Valid()
      ensures Effect(file.Contents(), state, reply)
           == OnSession(pid, old(file.Contents()), old(state), c, user, Line(line, prior, overflow))
    {
      hide Sscanf, PrintTriple, Wrap, StopWriting;
      var modi := Sscanf(line, prior, overflow);
      var check := PrintTriple(modi);
      if check != line {
        reply := Failed;
        EndWriting(c, user, file, reply);
        return;
      }
      var temp := file.records[user];
      var new_, sum := AddUp(temp, modi);
      if sum > LIMIT {
        reply := NotMoreThan15;
      } else {
        var newRecord := NoneBelowZero(new_);
        if newRecord {
          temp := Triple(new_[0], new_[1], new_[2]);
          reply := Updated(temp);
          file.Write(user, temp);
        } else {
          reply := NotLessThan0;
        }
      }
      EndWriting(c, user, file, reply);
    }

    /** The loop that adds the command to the booking, amount by amount, and sums up. */
    static method AddUp(temp: Triple, modi: Triple) returns (new_: array<Int32>, sum: Int32)
      ensures fresh(new_) && new_.Length == 3
      ensures Triple(new_[0], new_[1], new_[2]) == Plus(temp, modi) && sum == Sum(Plus(temp, modi))
    {
      hide Wrap;
      new_ := new Int32[3];
      sum := 0;
      for j := 0 to 3
        invariant forall k :: 0 <= k < j ==> new_[k] == Wrap(Amount(temp, k) + Amount(modi, k))
        invariant j == 0 ==> sum == 0
        invariant j == 1 ==> sum == new_[0]
        invariant j == 2 ==> sum == Wrap(new_[0] as int + new_[1] as int)
        invariant j == 3 ==> sum == Sum(Triple(new_[0], new_[1], new_[2]))
      {
        new_[j] := Wrap(Amount(temp, j) + Amount(modi, j));
        WrapFits(0 + new_[j]);
        sum := Wrap(sum + new_[j]);
      }
    }

    /** The loop that stops at the first amount below zero. */
    static method NoneBelowZero(new_: array<Int32>) returns (newRecord: bool)
      requires new_.Length == 3
      ensures newRecord <==> NonNegative(Triple(new_[0], new_[1], new_[2]))
    {
      newRecord := true;
      for j := 0 to 3
        invariant newRecord && forall k :: 0 <= k < j ==> new_[k] >= 0
      {
        if new_[j] < 0 {
          newRecord := false;
          break;
        }
      }
    }

    /** One round of the event loop on a descriptor that has input. */
    method HandleInput(c: nat, input: Input, file: RecordFile) returns (reply: Reply)
      requires Valid() && c < maxfd && c in state.conns && ValidDisk(file.Contents())
      modifies `state, connected, id, waitForWrite, writelock, readlock, file
      ensures Valid()
      ensures Effect(file.Contents(), state, reply) == OnInput(pid, old(file.Contents()), old(state), c, input)
    {
      hide OnId, OnSession;
      if !waitForWrite[c] {
        reply := HandleId(c, input, file);
      } else {
        reply := HandleSession(c, input, file);
      }
    }
  }

  /** Food, concerts and electronics by number. */
  function Amount(t: Triple, j: nat): Int32
    requires j < 3
  {
    if j == 0 then t.food else if j == 1 then t.concert else t.electronics
  }
}
