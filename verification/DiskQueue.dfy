/** The asynchronous disk queue of sys/disk/disk_driver.c and the command slots of sys/ahci.c. A port's
    command-issue register follows section 3.3.14 of the AHCI 1.3.1 specification: software sets a
    bit to issue the command in that slot, and the device clears it when the command is finished. */
module DiskQueue {
  const SLOTS := 32

  /** A command as written into a slot's command table. `serial` tells commands apart. */
  datatype Command = Command(serial: nat, write: bool, sector: nat, page: nat)

  /** ci and sact are registers of 32 bits; tfes is the task file error bit of the status register. */
  datatype Port = Port(ci: seq<bool>, sact: seq<bool>, tfes: bool, table: seq<Command>)

  /** disk_task; `id` is its address. */
  datatype Task = Task(id: nat, disk: nat, slot: nat, write: bool, issued: bool, lba: nat, page: nat, proc: nat)

  /** The first sector of a 4 KB block, as it ends up in the command: `starth` is declared with 32
      bits, so that the upper half of the sector number is lost. */
  function Sector(lba: nat): (s: nat)
    ensures s == lba * 8 <==> lba < 0x2000_0000
  {
    lba * 8 % 0x1_0000_0000
  }

  ghost predicate PortOk(p: Port) {
    |p.ci| == SLOTS && |p.sact| == SLOTS && |p.table| == SLOTS
  }

  /** Slot s of disk d holds command c, not finished yet. */
  ghost predicate Running(ports: seq<Port>, d: nat, s: nat, c: nat) {
    d < |ports| && s < |ports[d].ci| == |ports[d].table| && ports[d].ci[s] && ports[d].table[s].serial == c
  }

  /** No command is in two slots, and none that is still in a slot is finished. */
  ghost predicate PortsOk(ports: seq<Port>, n: nat, finished: set<nat>) {
    && (forall d {:trigger ports[d]} :: 0 <= d < |ports| ==> PortOk(ports[d]))
    && (forall d: nat, s: nat, c: nat {:trigger Running(ports, d, s, c)} :: Running(ports, d, s, c) ==> c < n && c !in finished)
    && (forall d: nat, s: nat, e: nat, r: nat, c: nat {:trigger Running(ports, d, s, c), Running(ports, e, r, c)} ::
          Running(ports, d, s, c) && Running(ports, e, r, c) ==> d == e && s == r)
    && (forall c :: c in finished ==> c < n)
  }

  /** The command of an issued task is finished, or still in the slot the task remembers. */
  ghost predicate TaskOk(ports: seq<Port>, own: map<nat, Command>, n: nat, finished: set<nat>, t: Task) {
    && t.disk < |ports| && t.slot < |ports[t.disk].ci| == |ports[t.disk].table|
    && (t.issued ==>
          && t.id in own && own[t.id].serial < n && own[t.id].write == t.write && own[t.id].page == t.page
          && (own[t.id].serial in finished || (ports[t.disk].ci[t.slot] && ports[t.disk].table[t.slot] == own[t.id])))
  }

  ghost predicate TasksOk(ports: seq<Port>, own: map<nat, Command>, n: nat, finished: set<nat>, queue: seq<Task>) {
    forall k {:trigger queue[k]} :: 0 <= k < |queue| ==> TaskOk(ports, own, n, finished, queue[k])
  }

  ghost predicate DistinctIds(queue: seq<Task>, n: nat) {
    && (forall k {:trigger queue[k]} :: 0 <= k < |queue| ==> queue[k].id < n)
    && (forall k, l {:trigger queue[k], queue[l]} :: 0 <= k < l < |queue| ==> queue[k].id != queue[l].id)
  }

  /** A new command goes into a clear slot of one port. */
  ghost predicate Issues(ports: seq<Port>, ports': seq<Port>, d: nat, s: nat, c: Command) {
    && d < |ports| && |ports[d].ci| == |ports[d].sact| == |ports[d].table| == SLOTS && s < SLOTS && !ports[d].ci[s] && !ports[d].sact[s]
    && ports' == ports[d := Port(ports[d].ci[s := true], ports[d].sact, false, ports[d].table[s := c])]
  }

  lemma IssueKeeps(ports: seq<Port>, ports': seq<Port>, own: map<nat, Command>, n: nat, finished: set<nat>, t: Task, d: nat, s: nat, c: Command)
    requires TaskOk(ports, own, n, finished, t) && Issues(ports, ports', d, s, c) && c.serial == n
    ensures TaskOk(ports', own, n + 1, finished, t)
  {
  }

  lemma IssuePorts(ports: seq<Port>, ports': seq<Port>, n: nat, finished: set<nat>, d: nat, s: nat, c: Command)
    requires PortsOk(ports, n, finished) && Issues(ports, ports', d, s, c) && c.serial == n
    ensures PortsOk(ports', n + 1, finished)
  {
    forall e: nat, r: nat, x: nat | Running(ports', e, r, x)
      ensures x < n + 1 && x !in finished && (x == n <==> e == d && r == s)
      ensures x != n ==> Running(ports, e, r, x)
    {
      assert (e, r) != (d, s) ==> Running(ports, e, r, x);
    }
  }

  /** The device finishes the command in slot s of disk d. */
  lemma CompletePorts(ports: seq<Port>, ports': seq<Port>, n: nat, finished: set<nat>, d: nat, s: nat, c: nat)
    requires PortsOk(ports, n, finished) && Running(ports, d, s, c) && ports' == ports[d := ports[d].(ci := ports[d].ci[s := false])]
    ensures PortsOk(ports', n, finished + {c})
  {
    forall e: nat, r: nat, x: nat | Running(ports', e, r, x)
      ensures Running(ports, e, r, x) && (e, r) != (d, s)
    {
    }
  }

  /** The k-th task gets command c. */
  lemma TaskIssued(ports: seq<Port>, own: map<nat, Command>, n: nat, finished: set<nat>, queue: seq<Task>, bound: nat, k: nat, t: Task, c: Command)
    requires TasksOk(ports, own, n, finished, queue) && DistinctIds(queue, bound) && k < |queue| && t.id == queue[k].id
    requires TaskOk(ports, own[t.id := c], n, finished, t)
    ensures TasksOk(ports, own[t.id := c], n, finished, queue[k := t]) && DistinctIds(queue[k := t], bound)
  {
    forall l | 0 <= l < |queue| && l != k
      ensures TaskOk(ports, own[t.id := c], n, finished, queue[l])
    {
      assert queue[l].id != queue[k].id;
    }
  }

  /** A new task, with a command or without, joins the queue. */
  lemma TaskAdded(ports: seq<Port>, own: map<nat, Command>, own': map<nat, Command>, n: nat, finished: set<nat>, queue: seq<Task>, bound: nat, t: Task)
    requires TasksOk(ports, own, n, finished, queue) && DistinctIds(queue, bound) && t.id == bound
    requires own' == own || (t.id in own' && own' == own[t.id := own'[t.id]])
    requires TaskOk(ports, own', n, finished, t)
    ensures TasksOk(ports, own', n, finished, queue + [t]) && DistinctIds(queue + [t], bound + 1)
  {
    forall l | 0 <= l < |queue|
      ensures TaskOk(ports, own', n, finished, queue[l])
    {
      assert queue[l].id != t.id;
    }
  }

  ghost function Ids(queue: seq<Task>): seq<nat> {
    seq(|queue|, k requires 0 <= k < |queue| => queue[k].id)
  }

  /** The queue's ids without those in `left`. */
  ghost function Without(ids: seq<nat>, left: set<nat>): seq<nat> {
    if ids == [] then []
    else Without(ids[..|ids| - 1], left) + (if ids[|ids| - 1] in left then [] else [ids[|ids| - 1]])
  }

  lemma {:induction false} WithoutMore(ids: seq<nat>, left: set<nat>, x: nat)
    requires x !in ids
    ensures Without(ids, left + {x}) == Without(ids, left)
  {
    if ids != [] { WithoutMore(ids[..|ids| - 1], left, x); }
  }

  datatype Issue = Issued(slot: nat) | NoSlot | PortHung(slot: nat)

  /** What check_task finds: the task is done, or stays in the queue, or an assertion stops the kernel. */
  datatype Check = Done | Pending | Halted

  /** Every slot has a command. */
  ghost predicate Full(p: Port) {
    |p.ci| == |p.sact| == SLOTS && forall s :: 0 <= s < SLOTS ==> p.ci[s] || p.sact[s]
  }

  /** The first n tasks have all been issued or have to wait for a slot. */
  ghost predicate NoneStuck(queue: seq<Task>, n: nat, ports: seq<Port>) {
    forall j {:trigger queue[j]} :: 0 <= j < n <= |queue| && !queue[j].issued ==> queue[j].disk < |ports| && Full(ports[queue[j].disk])
  }

  ghost predicate SameSlots(ports: seq<Port>, ports': seq<Port>) {
    |ports'| == |ports| && forall d {:trigger ports[d]} {:trigger ports'[d]} :: 0 <= d < |ports| ==> ports'[d].ci == ports[d].ci && ports'[d].sact == ports[d].sact
  }

  class Driver {
    var ports: seq<Port>
    var queue: seq<Task>
    var nextTask: nat
    var onHold: set<nat>
    var terminated: set<nat>
    var nextSerial: nat
    ghost var own: map<nat, Command>   // the command of each task that was issued
    ghost var finished: set<nat>       // commands that the device has finished

    ghost predicate Valid()
      reads this
    {
      && PortsOk(ports, nextSerial, finished) && TasksOk(ports, own, nextSerial, finished, queue)
      && DistinctIds(queue, nextTask) && (forall id :: id in own ==> id < nextTask)
    }

    /** The search for a clear slot. */
    method FindSlot(disk: nat) returns (s: nat)
      requires disk < |ports| && |ports[disk].ci| == |ports[disk].sact| == SLOTS
      ensures s <= SLOTS && (s < SLOTS ==> !ports[disk].ci[s] && !ports[disk].sact[s])
      ensures forall i :: 0 <= i < s ==> ports[disk].ci[i] || ports[disk].sact[i]
    {
      s := 0;
      while s < SLOTS && (ports[disk].sact[s] || ports[disk].ci[s])
        invariant s <= SLOTS && forall i :: 0 <= i < s ==> ports[disk].ci[i] || ports[disk].sact[i]
      {
        s := s + 1;
      }
    }

    /** ahci_read_task and ahci_write_task. `hung` says whether the port stays busy. */
    method Submit(disk: nat, lba: nat, page: nat, write: bool, hung: bool) returns (r: Issue)
      requires Valid() && disk < |ports|
      modifies `ports, `nextSerial
      ensures Valid()
      ensures r.NoSlot? <==> Full(old(ports)[disk])
      ensures r.Issued? ==> !hung && nextSerial == old(nextSerial) + 1 &&
                            Issues(old(ports), ports, disk, r.slot, Command(old(nextSerial), write, Sector(lba), page))
      ensures r.PortHung? <==> hung && !Full(old(ports)[disk])
      ensures r.NoSlot? ==> ports == old(ports)[disk := old(ports)[disk].(tfes := false)]
      ensures r.PortHung? ==> Prepares(old(ports), ports, disk, r.slot, Command(old(nextSerial), write, Sector(lba), page))
      ensures !r.Issued? ==> nextSerial == old(nextSerial) && Quiet(old(ports), ports, disk)
    {
      assert PortOk(ports[disk]);
      ports := ports[disk := ports[disk].(tfes := false)];
      QuietState(old(ports), ports, own, nextSerial, finished, queue, disk);
      var s := FindSlot(disk);
      if s == SLOTS { return NoSlot; }
      var p, c := ports[disk], Command(nextSerial, write, Sector(lba), page);
      ports := ports[disk := p.(table := p.table[s := c])];
      QuietState(old(ports), ports, own, nextSerial, finished, queue, disk);
      if hung { return PortHung(s); }
      ports := ports[disk := ports[disk].(ci := p.ci[s := true])];
      nextSerial := nextSerial + 1;
      IssuePorts(old(ports), ports, old(nextSerial), finished, disk, s, c);
      forall k | 0 <= k < |queue|
        ensures TaskOk(ports, own, nextSerial, finished, queue[k])
      {
        IssueKeeps(old(ports), ports, own, old(nextSerial), finished, queue[k], disk, s, c);
      }
      return Issued(s);
    }

    constructor (ports: seq<Port>)
      requires forall d :: 0 <= d < |ports| ==> |ports[d].ci| == |ports[d].sact| == |ports[d].table| == SLOTS
      requires forall d, s :: 0 <= d < |ports| && 0 <= s < SLOTS ==> !ports[d].ci[s]
      ensures Valid() && this.ports == ports && queue == []
    {
      this.ports := ports;
      queue, nextTask, onHold, terminated, nextSerial := [], 0, {}, {}, 0;
      own, finished := map[], {};
    }

    /** read_disk_block_req and write_disk_block_req: the task is queued, issued or not, unless the
        port hangs. */
    method Request(disk: nat, proc: nat, lba: nat, page: nat, write: bool, hung: bool) returns (ok: bool)
      requires Valid() && disk < |ports|
      modifies this
      ensures Valid() && onHold == old(onHold) && terminated == old(terminated) && finished == old(finished)
      ensures ok <==> !hung || Full(old(ports)[disk])
      ensures !ok ==> queue == old(queue) && own == old(own)
      ensures ok ==> |queue| == |old(queue)| + 1 && queue[..|old(queue)|] == old(queue) && nextTask == old(nextTask) + 1
      ensures ok ==> var t := queue[|old(queue)|];
                t.id == old(nextTask) && t.disk == disk && t.proc == proc && t.page == page && t.write == write &&
                (t.issued <==> !Full(old(ports)[disk])) &&
                if t.issued then own == old(own)[t.id := Command(old(nextSerial), write, Sector(lba), page)]
                else t.lba == lba && own == old(own)
    {
      assert PortOk(ports[disk]);
      var r := Submit(disk, lba, page, write, hung);
      if r.PortHung? { return false; }
      var t;
      if r.NoSlot? {
        t := Task(nextTask, disk, 0, write, false, lba, page, proc);
      } else {
        t := Task(nextTask, disk, r.slot, write, true, 0, page, proc);
        own := own[t.id := Command(old(nextSerial), write, Sector(lba), page)];
      }
      TaskAdded(ports, old(own), own, nextSerial, finished, queue, nextTask, t);
      queue := queue + [t];
      nextTask := nextTask + 1;
      return true;
    }

    /** The device finishes the command in slot s. */
    method Complete(disk: nat, s: nat)
      requires Valid() && disk < |ports| && s < SLOTS && s < |ports[disk].ci| == |ports[disk].table| && ports[disk].ci[s]
      modifies `ports, `finished
      ensures Valid() && finished == old(finished) + {old(ports)[disk].table[s].serial}
    {
      assert PortOk(ports[disk]);
      ghost var c := ports[disk].table[s].serial;
      ports := ports[disk := ports[disk].(ci := ports[disk].ci[s := false])];
      finished := finished + {c};
      CompletePorts(old(ports), ports, nextSerial, old(finished), disk, s, c);
      forall k | 0 <= k < |queue|
        ensures TaskOk(ports, own, nextSerial, finished, queue[k])
      {
        assert TaskOk(old(ports), own, nextSerial, old(finished), queue[k]);
      }
    }

    /** The device reports a task file error. */
    method Error(disk: nat)
      requires Valid() && disk < |ports|
      modifies `ports
      ensures Valid() && ports == old(ports)[disk := old(ports)[disk].(tfes := true)]
    {
      ports := ports[disk := ports[disk].(tfes := true)];
      QuietState(old(ports), ports, own, nextSerial, finished, queue, disk);
    }

    /** check_task on the k-th task. A task is reported done only if the device has finished its own
        command, even if its slot has been used again since. The kernel stops if a late submission
        fails. */
    method CheckTask(k: nat, hung: bool) returns (r: Check)
      requires Valid() && k < |queue|
      modifies this
      ensures Valid() && finished == old(finished) && terminated == old(terminated) && nextTask == old(nextTask)
      ensures |queue| == |old(queue)| && queue == old(queue)[k := queue[k]] && SameTask(old(queue)[k], queue[k])
      ensures r.Done? ==> queue == old(queue) && queue[k].issued && queue[k].id in own && own[queue[k].id].serial in finished
      ensures onHold == if r.Done? && queue[k].proc !in terminated then old(onHold) - {queue[k].proc} else old(onHold)
      ensures r.Pending? && queue[k].issued ==> Waiting(old(ports), ports, queue[k])
      ensures !old(queue)[k].issued && queue[k].issued ==>
                var t := queue[k]; own == old(own)[t.id := Command(old(nextSerial), t.write, Sector(t.lba), t.page)]
      ensures r.Halted? <==> hung && !old(queue)[k].issued && !Full(old(ports)[old(queue)[k].disk])
      ensures !r.Halted? ==> (queue[k].issued <==> old(queue)[k].issued || !Full(old(ports)[old(queue)[k].disk]))
      ensures r.Halted? ==> queue == old(queue) && own == old(own)
      ensures hung ==> SameSlots(old(ports), ports)
      ensures LaterPorts(old(ports), ports)
      ensures forall id :: id in old(own) && (id != old(queue)[k].id || r.Done?) ==> id in own && own[id] == old(own)[id]
    {
      var t := queue[k];
      assert TaskOk(ports, own, nextSerial, finished, t) && PortOk(ports[t.disk]);
      if !t.issued {
        var sent := Submit(t.disk, t.lba, t.page, t.write, hung);
        if sent.PortHung? { return Halted; }
        if sent.Issued? {
          own := own[t.id := Command(old(nextSerial), t.write, Sector(t.lba), t.page)];
          queue := queue[k := t.(issued := true, slot := sent.slot)];
          TaskIssued(ports, old(own), nextSerial, finished, old(queue), nextTask, k, queue[k], own[t.id]);
        }
        return Pending;
      }
      var p := ports[t.disk];
      r := if !p.tfes && !p.ci[t.slot] then Done else Pending;
      if r.Done? && t.proc !in terminated { onHold := onHold - {t.proc}; }
    }

    /** check_disk_task: tasks that are done leave the queue, the others stay in order. The kernel
        stops exactly if a port hangs on a task that could have been issued. */
    method Poll(hung: bool) returns (halted: bool, ghost left: set<nat>)
      requires Valid()
      modifies this
      ensures Valid() && finished == old(finished) && terminated == old(terminated)
      ensures halted <==> hung && !NoneStuck(old(queue), |old(queue)|, old(ports))
      ensures Ids(queue) == Without(Ids(old(queue)), left)
      ensures forall id :: id in left ==> id in Ids(old(queue)) && id in own && own[id].serial in finished
      ensures forall q :: q in old(onHold) && q !in onHold ==>
                q !in terminated && exists k :: 0 <= k < |old(queue)| && old(queue)[k].proc == q && old(queue)[k].id in left
      ensures forall k :: 0 <= k < |old(queue)| && old(queue)[k].id in left && old(queue)[k].proc !in terminated ==> old(queue)[k].proc !in onHold
      ensures onHold <= old(onHold)
      ensures !halted ==> forall k :: 0 <= k < |queue| && queue[k].issued ==> Waiting(old(ports), ports, queue[k])
      ensures !halted ==> forall k :: 0 <= k < |queue| && !queue[k].issued ==> queue[k].disk < |ports| && Full(ports[queue[k].disk])
    {
      left, halted := {}, false;
      ghost var q0, n, ports0, hold0 := queue, 0, ports, onHold;
      PollBegun(q0, ports0, hold0, own, finished, terminated);
      var k := 0;
      while k < |queue| && !halted
        invariant Valid() && finished == old(finished) && terminated == old(terminated) && nextTask == old(nextTask)
        invariant Polling(q0, n, queue, k, left, ports0, ports, hold0, onHold, own, finished, terminated)
        invariant hung ==> SameSlots(ports0, ports) && NoneStuck(q0, n, ports0)
        invariant halted ==> hung && n < |q0| && !NoneStuck(q0, n + 1, ports0)
        decreases |queue| - k, !halted
      {
        var r;
        r, left := PollOne(k, hung, q0, n, left, ports0, hold0);
        match r
        case Done => n := n + 1;
        case Pending => n, k := n + 1, k + 1;
        case Halted => halted := true;
      }
      PollEnded(q0, n, queue, k, left, hold0, onHold, terminated, nextTask);
    }

    /** One turn of check_disk_task. */
    method PollOne(k: nat, hung: bool, ghost q0: seq<Task>, ghost n: nat, ghost left: set<nat>, ghost ports0: seq<Port>, ghost hold0: set<nat>)
      returns (r: Check, ghost left': set<nat>)
      requires Valid() && k < |queue| && DistinctIds(q0, nextTask)
      requires Polling(q0, n, queue, k, left, ports0, ports, hold0, onHold, own, finished, terminated)
      requires hung ==> SameSlots(ports0, ports) && NoneStuck(q0, n, ports0)
      modifies this
      ensures Valid() && finished == old(finished) && terminated == old(terminated) && nextTask == old(nextTask)
      ensures |queue| == |old(queue)| - if r.Done? then 1 else 0
      ensures Polling(q0, if r.Halted? then n else n + 1, queue, if r.Pending? then k + 1 else k, left', ports0, ports, hold0, onHold, own, finished, terminated)
      ensures hung ==> SameSlots(ports0, ports) && n < |q0| && (NoneStuck(q0, n + 1, ports0) <==> !r.Halted?)
      ensures r.Halted? ==> hung
    {
      ghost var queue1, ports1, hold1, own1 := queue, ports, onHold, own;
      r := CheckTask(k, hung);
      WaitingOn(ports0, ports1, ports);
      if hung { Stuck(q0, n, queue1, k, ports0, ports1); }
      left' := left;
      match r
      case Done =>
        left' := left + {queue[k].id};
        queue := queue[..k] + queue[k + 1..];
        Removed(ports, own, nextSerial, finished, queue1, nextTask, k);
        TurnDone(q0, n, queue1, k, left, ports0, ports1, ports, hold0, hold1, onHold, own1, own, finished, terminated, nextTask);
      case Pending =>
        TurnKept(q0, n, queue1, k, left, ports0, ports1, ports, hold0, hold1, own1, own, finished, terminated, nextTask, queue[k]);
      case Halted =>
    }
  }

  /** Whether the next task is stuck shows in the ports as they were when the poll began. */
  lemma Stuck(q0: seq<Task>, n: nat, q: seq<Task>, k: nat, ports0: seq<Port>, ports: seq<Port>)
    requires n <= |q0| && k < |q| && q[k..] == q0[n..] && SameSlots(ports0, ports) && NoneStuck(q0, n, ports0) && q[k].disk < |ports|
    ensures n < |q0| && (NoneStuck(q0, n + 1, ports0) <==> q[k].issued || Full(ports[q[k].disk]))
  {
    assert q[k] == q[k..][0] == q0[n];
  }

  ghost predicate Polling(q0: seq<Task>, n: nat, q: seq<Task>, k: nat, left: set<nat>, ports0: seq<Port>, ports: seq<Port>,
                          hold0: set<nat>, hold: set<nat>, own: map<nat, Command>, finished: set<nat>, terminated: set<nat>) {
    && Polled(q0, n, q, k, left) && LaterPorts(ports0, ports) && Woken(q0, n, left, hold0, hold, terminated)
    && (forall id :: id in left ==> id in own && own[id].serial in finished)
    && (forall l :: 0 <= l < k && q[l].issued ==> Waiting(ports0, ports, q[l])) && NoneStuck(q, k, ports)
  }

  lemma PollBegun(q: seq<Task>, ports: seq<Port>, hold: set<nat>, own: map<nat, Command>, finished: set<nat>, terminated: set<nat>)
    ensures Polling(q, 0, q, 0, {}, ports, ports, hold, hold, own, finished, terminated)
  {
    assert q[..0] == [] && Ids([]) == [];
  }

  /** Tasks that the poll has not come to are still there. */
  lemma {:induction false} PollEnded(q0: seq<Task>, n: nat, q: seq<Task>, k: nat, left: set<nat>, hold0: set<nat>, hold: set<nat>, terminated: set<nat>, bound: nat)
    requires Polled(q0, n, q, k, left) && Woken(q0, n, left, hold0, hold, terminated) && DistinctIds(q0, bound)
    ensures Ids(q) == Without(Ids(q0), left) && (forall id :: id in left ==> id in Ids(q0))
    ensures Woken(q0, |q0|, left, hold0, hold, terminated) && (k == |q| ==> n == |q0|)
    decreases |q| - k
  {
    if k == |q| {
      assert q[k..] == [];
      assert q0[..n] == q0 && q[..|q|] == q;
    } else {
      assert q[k := q[k]] == q;
      PolledKept(q0, n, q, k, left, q[k], bound);
      WokenKept(q0, n, left, hold0, hold, terminated, bound);
      PollEnded(q0, n + 1, q, k + 1, left, hold0, hold, terminated, bound);
    }
  }

  lemma TurnDone(q0: seq<Task>, n: nat, q: seq<Task>, k: nat, left: set<nat>, ports0: seq<Port>, ports: seq<Port>, ports': seq<Port>,
                 hold0: set<nat>, hold: set<nat>, hold': set<nat>, own: map<nat, Command>, own': map<nat, Command>,
                 finished: set<nat>, terminated: set<nat>, bound: nat)
    requires Polling(q0, n, q, k, left, ports0, ports, hold0, hold, own, finished, terminated) && k < |q| && DistinctIds(q0, bound)
    requires LaterPorts(ports, ports') && LaterPorts(ports0, ports') && forall t {:trigger Waiting(ports0, ports', t)} :: Waiting(ports0, ports, t) ==> Waiting(ports0, ports', t)
    requires hold' == if q[k].proc !in terminated then hold - {q[k].proc} else hold
    requires q[k].id in own' && own'[q[k].id].serial in finished
    requires forall id :: id in own ==> id in own' && own'[id] == own[id]
    ensures Polling(q0, n + 1, q[..k] + q[k + 1..], k, left + {q[k].id}, ports0, ports', hold0, hold', own', finished, terminated)
  {
    PolledDone(q0, n, q, k, left, bound);
    WokenDone(q0, n, left, hold, hold', hold0, terminated, bound);
    assert forall l :: 0 <= l < k ==> (q[..k] + q[k + 1..])[l] == q[l];
    StillFull(q, k, ports, ports');
  }

  /** A port without a free slot stays so until the device has finished a command. */
  lemma StillFull(q: seq<Task>, k: nat, ports: seq<Port>, ports': seq<Port>)
    requires NoneStuck(q, k, ports) && LaterPorts(ports, ports')
    ensures NoneStuck(q, k, ports')
  {
    forall j | 0 <= j < k <= |q| && !q[j].issued
      ensures q[j].disk < |ports'| && Full(ports'[q[j].disk])
    {
      assert LaterPort(ports[q[j].disk], ports'[q[j].disk]);
    }
  }

  lemma TurnKept(q0: seq<Task>, n: nat, q: seq<Task>, k: nat, left: set<nat>, ports0: seq<Port>, ports: seq<Port>, ports': seq<Port>,
                 hold0: set<nat>, hold: set<nat>, own: map<nat, Command>, own': map<nat, Command>,
                 finished: set<nat>, terminated: set<nat>, bound: nat, t: Task)
    requires Polling(q0, n, q, k, left, ports0, ports, hold0, hold, own, finished, terminated) && k < |q| && DistinctIds(q0, bound)
    requires LaterPorts(ports, ports') && LaterPorts(ports0, ports') && forall t {:trigger Waiting(ports0, ports', t)} :: Waiting(ports0, ports, t) ==> Waiting(ports0, ports', t)
    requires t.id == q[k].id && (if t.issued then Waiting(ports0, ports', t) else t.disk < |ports'| && Full(ports'[t.disk]))
    requires forall id :: id in own && id != q[k].id ==> id in own' && own'[id] == own[id]
    ensures Polling(q0, n + 1, q[k := t], k + 1, left, ports0, ports', hold0, hold, own', finished, terminated)
  {
    PolledKept(q0, n, q, k, left, t, bound);
    WokenKept(q0, n, left, hold0, hold, terminated, bound);
    assert q[k] == q[k..][0] == q0[n];
    FreshId(q0, n, bound);
    StillFull(q, k, ports, ports');
  }

  /** A poll that has seen the first n tasks of q0: k of them are kept, in front of the rest. */
  ghost predicate Polled(q0: seq<Task>, n: nat, q: seq<Task>, k: nat, left: set<nat>) {
    && n <= |q0| && k <= |q| && q[k..] == q0[n..] && Ids(q[..k]) == Without(Ids(q0[..n]), left)
    && (forall id :: id in left ==> id in Ids(q0[..n]))
  }

  lemma IdsNext(q: seq<Task>, n: nat)
    requires n < |q|
    ensures Ids(q[..n + 1]) == Ids(q[..n]) + [q[n].id]
  {
  }

  lemma FreshId(q0: seq<Task>, n: nat, bound: nat)
    requires n < |q0| && DistinctIds(q0, bound)
    ensures q0[n].id !in Ids(q0[..n])
  {
  }

  lemma WithoutLast(ids: seq<nat>, x: nat, left: set<nat>)
    ensures Without(ids + [x], left) == Without(ids, left) + (if x in left then [] else [x])
  {
    assert (ids + [x])[..|ids + [x]| - 1] == ids;
  }

  lemma PolledKept(q0: seq<Task>, n: nat, q: seq<Task>, k: nat, left: set<nat>, t: Task, bound: nat)
    requires Polled(q0, n, q, k, left) && k < |q| && DistinctIds(q0, bound) && t.id == q[k].id
    ensures n < |q0| && Polled(q0, n + 1, q[k := t], k + 1, left)
  {
    var q' := q[k := t];
    assert q[k] == q[k..][0] == q0[n];
    IdsNext(q0, n);
    IdsNext(q', k);
    FreshId(q0, n, bound);
    WithoutLast(Ids(q0[..n]), q0[n].id, left);
    assert q'[..k] == q[..k];
    assert q'[k + 1..] == q[k..][1..] == q0[n + 1..];
  }

  lemma PolledDone(q0: seq<Task>, n: nat, q: seq<Task>, k: nat, left: set<nat>, bound: nat)
    requires Polled(q0, n, q, k, left) && k < |q| && DistinctIds(q0, bound)
    ensures n < |q0| && q[k] == q0[n] && Polled(q0, n + 1, q[..k] + q[k + 1..], k, left + {q[k].id})
  {
    var q' := q[..k] + q[k + 1..];
    assert q[k] == q[k..][0] == q0[n];
    IdsNext(q0, n);
    FreshId(q0, n, bound);
    WithoutLast(Ids(q0[..n]), q0[n].id, left + {q[k].id});
    WithoutMore(Ids(q0[..n]), left, q[k].id);
    assert q'[..k] == q[..k];
    assert q'[k..] == q[k..][1..] == q0[n + 1..];
  }

  /** Exactly the processes of the tasks that left, unless terminated, were woken. */
  ghost predicate Woken(q0: seq<Task>, n: nat, left: set<nat>, hold0: set<nat>, hold: set<nat>, terminated: set<nat>) {
    && n <= |q0| && hold <= hold0
    && (forall q :: q in hold0 && q !in hold ==> q !in terminated && exists k :: 0 <= k < n && q0[k].proc == q && q0[k].id in left)
    && (forall k :: 0 <= k < n && q0[k].id in left && q0[k].proc !in terminated ==> q0[k].proc !in hold)
  }

  lemma WokenDone(q0: seq<Task>, n: nat, left: set<nat>, hold: set<nat>, hold': set<nat>, hold0: set<nat>, terminated: set<nat>, bound: nat)
    requires Woken(q0, n, left, hold0, hold, terminated) && n < |q0| && DistinctIds(q0, bound)
    requires hold' == if q0[n].proc !in terminated then hold - {q0[n].proc} else hold
    ensures Woken(q0, n + 1, left + {q0[n].id}, hold0, hold', terminated)
  {
    forall q | q in hold0 && q !in hold'
      ensures q !in terminated && exists k :: 0 <= k < n + 1 && q0[k].proc == q && q0[k].id in left + {q0[n].id}
    {
      if q in hold {
        assert q0[n].proc == q && q0[n].id in left + {q0[n].id};
      } else {
        var k :| 0 <= k < n && q0[k].proc == q && q0[k].id in left;
        assert q0[k].id in left + {q0[n].id};
      }
    }
  }

  lemma WokenKept(q0: seq<Task>, n: nat, left: set<nat>, hold0: set<nat>, hold: set<nat>, terminated: set<nat>, bound: nat)
    requires Woken(q0, n, left, hold0, hold, terminated) && n < |q0| && DistinctIds(q0, bound) && forall id :: id in left ==> id in Ids(q0[..n])
    ensures Woken(q0, n + 1, left, hold0, hold, terminated)
  {
    FreshId(q0, n, bound);
    forall q | q in hold0 && q !in hold
      ensures exists k :: 0 <= k < n + 1 && q0[k].proc == q && q0[k].id in left
    {
      var k :| 0 <= k < n && q0[k].proc == q && q0[k].id in left;
    }
  }

  lemma Removed(ports: seq<Port>, own: map<nat, Command>, n: nat, finished: set<nat>, q: seq<Task>, bound: nat, k: nat)
    requires TasksOk(ports, own, n, finished, q) && DistinctIds(q, bound) && k < |q|
    ensures TasksOk(ports, own, n, finished, q[..k] + q[k + 1..]) && DistinctIds(q[..k] + q[k + 1..], bound)
  {
    var q' := q[..k] + q[k + 1..];
    forall l | 0 <= l < |q'|
      ensures q'[l] == q[if l < k then l else l + 1]
    {
    }
  }

  lemma WaitingOn(ports0: seq<Port>, ports1: seq<Port>, ports2: seq<Port>)
    requires LaterPorts(ports0, ports1) && LaterPorts(ports1, ports2)
    ensures LaterPorts(ports0, ports2)
    ensures forall t {:trigger Waiting(ports0, ports2, t)} :: Waiting(ports0, ports1, t) || Waiting(ports1, ports2, t) ==> Waiting(ports0, ports2, t)
  {
    forall d | 0 <= d < |ports0|
      ensures LaterPort(ports0[d], ports2[d])
    {
      assert LaterPort(ports0[d], ports1[d]) && LaterPort(ports1[d], ports2[d]);
    }
    forall t | Waiting(ports0, ports1, t) || Waiting(ports1, ports2, t)
      ensures Waiting(ports0, ports2, t)
    {
      assert LaterPort(ports0[t.disk], ports1[t.disk]) && LaterPort(ports1[t.disk], ports2[t.disk]);
    }
  }

  /** The task is the same, issued or not. */
  ghost predicate SameTask(t: Task, t': Task) {
    t' == t.(issued := t'.issued, slot := t'.slot) && (t.issued ==> t' == t)
  }

  /** Why an issued task is still in the queue: its slot is busy, or there was an error. */
  ghost predicate Waiting(ports: seq<Port>, ports': seq<Port>, t: Task) {
    t.disk < |ports| == |ports'| && t.slot < |ports'[t.disk].ci| && (ports[t.disk].tfes || ports'[t.disk].ci[t.slot])
  }

  /** Only new commands: no bit of a command-issue register is cleared. */
  ghost predicate LaterPorts(ports: seq<Port>, ports': seq<Port>) {
    |ports'| == |ports| && forall d {:trigger ports[d]} {:trigger ports'[d]} :: 0 <= d < |ports| ==> LaterPort(ports[d], ports'[d])
  }

  ghost predicate LaterPort(p: Port, p': Port) {
    |p'.ci| == |p.ci| && p'.sact == p.sact && (p'.tfes ==> p.tfes) && forall s :: 0 <= s < |p.ci| && p.ci[s] ==> p'.ci[s]
  }

  /** One port changed in its error bit and in slots without a command, and no other did. */
  ghost predicate Quiet(ports: seq<Port>, ports': seq<Port>, d: nat) {
    && d < |ports| == |ports'| && ports' == ports[d := ports'[d]]
    && ports'[d].ci == ports[d].ci && ports'[d].sact == ports[d].sact && |ports'[d].table| == |ports[d].table|
    && (forall s :: 0 <= s < |ports[d].ci| && s < |ports[d].table| && ports[d].ci[s] ==> ports'[d].table[s] == ports[d].table[s])
  }

  lemma QuietState(ports: seq<Port>, ports': seq<Port>, own: map<nat, Command>, n: nat, finished: set<nat>, queue: seq<Task>, d: nat)
    requires PortsOk(ports, n, finished) && TasksOk(ports, own, n, finished, queue) && Quiet(ports, ports', d)
    ensures PortsOk(ports', n, finished) && TasksOk(ports', own, n, finished, queue)
  {
    assert PortOk(ports[d]) && PortOk(ports'[d]);
    forall e: nat, s: nat, c: nat | Running(ports', e, s, c)
      ensures Running(ports, e, s, c)
    {
    }
    forall k | 0 <= k < |queue|
      ensures TaskOk(ports', own, n, finished, queue[k])
    {
      assert TaskOk(ports, own, n, finished, queue[k]);
    }
  }

  /** A command is written into a clear slot and not issued. */
  ghost predicate Prepares(ports: seq<Port>, ports': seq<Port>, d: nat, s: nat, c: Command) {
    && d < |ports| && |ports[d].ci| == |ports[d].sact| == |ports[d].table| == SLOTS && s < SLOTS && !ports[d].ci[s] && !ports[d].sact[s]
    && ports' == ports[d := ports[d].(tfes := false, table := ports[d].table[s := c])]
  }
}
