/**
 * proc.c: fork, exit, wait, kill and the state changes around them, on the process table.  A method is
 * what one process does while it holds ptable.lock, so Valid() is what holds whenever the lock is free.
 */
module Proc {
  import opened Wrappers

  datatype ProcState = UNUSED | EMBRYO | SLEEPING | RUNNABLE | RUNNING | ZOMBIE

  /** What p->chan points to: nothing, a struct proc, or something else. */
  datatype Chan = NoChan | OfProc(i: nat) | Other(x: nat)

  datatype Entry = Entry(state: ProcState, pid: nat, parent: Option<nat>, chan: Chan, killed: bool)

  /** One pass of wait()'s loop: a child was reaped, -1, or sleep(curproc, &ptable.lock). */
  datatype WaitResult = Reaped(pid: nat) | NoChildren | Sleeps

  /** Exists as a process: scheduled, schedulable, asleep or a zombie. */
  predicate Live(e: Entry) { e.state in {SLEEPING, RUNNABLE, RUNNING, ZOMBIE} }

  /** Can still call wait(). */
  predicate CanWait(e: Entry) { e.state in {SLEEPING, RUNNABLE, RUNNING} }

  function Wake(e: Entry, c: Chan): Entry {
    if e.state == SLEEPING && e.chan == c then e.(state := RUNNABLE) else e
  }

  /** The entry that kill() leaves: marked, and runnable if it slept. */
  function Killed(e: Entry): Entry {
    e.(killed := true, state := if e.state == SLEEPING then RUNNABLE else e.state)
  }

  /** wakeup1(c) */
  function Woken(ps: seq<Entry>, c: Chan): (r: seq<Entry>)
    ensures |r| == |ps| && forall i | 0 <= i < |ps| :: r[i] == Wake(ps[i], c)
  {
    if ps == [] then [] else Woken(ps[..|ps| - 1], c) + [Wake(ps[|ps| - 1], c)]
  }

  ghost predicate ZombieChild(ps: seq<Entry>, p: nat, c: nat) {
    c < |ps| && ps[c].parent == Some(p) && ps[c].state == ZOMBIE
  }

  // ---- the invariant ----

  /** i has a parent other than itself that can still wait for it. */
  ghost predicate HasParent(ps: seq<Entry>, i: nat)
    requires i < |ps|
  {
    && ps[i].parent.Some? && ps[i].parent.value < |ps| && ps[i].parent.value != i
    && CanWait(ps[ps[i].parent.value])
  }

  /** Every process but init has a parent that can still wait for it. */
  ghost predicate Parents(ps: seq<Entry>, init: nat) {
    && init < |ps| && CanWait(ps[init]) && ps[init].parent == None
    && (forall i: nat {:trigger HasParent(ps, i)} | i < |ps| && i != init && Live(ps[i]) :: HasParent(ps, i))
    && (forall i | 0 <= i < |ps| && ps[i].state == UNUSED :: ps[i].parent == None)
  }

  /** p is asleep in wait(). */
  predicate InWait(ps: seq<Entry>, p: nat)
    requires p < |ps|
  {
    ps[p].state == SLEEPING && ps[p].chan == OfProc(p)
  }

  /** Nobody is asleep in wait() with a zombie child. */
  ghost predicate NoSleepOverZombie(ps: seq<Entry>) {
    forall p: nat, c: nat | p < |ps| && ZombieChild(ps, p, c) :: !InWait(ps, p)
  }

  /** p is in fork(), making the embryo forking[p]. */
  ghost predicate Forks(ps: seq<Entry>, forking: map<nat, nat>, p: nat)
    requires p in forking
  {
    p < |ps| && CanWait(ps[p]) && !InWait(ps, p) && forking[p] < |ps| && ps[forking[p]].state == EMBRYO
  }

  /** An embryo's parent, once set, is the process in fork() that is making it. */
  ghost predicate IsMade(ps: seq<Entry>, forking: map<nat, nat>, i: nat)
    requires i < |ps|
  {
    ps[i].parent.None? || (ps[i].parent.value in forking && forking[ps[i].parent.value] == i)
  }

  ghost predicate Embryos(ps: seq<Entry>, forking: map<nat, nat>) {
    && (forall p {:trigger Forks(ps, forking, p)} | p in forking :: Forks(ps, forking, p))
    && (forall i: nat {:trigger IsMade(ps, forking, i)} | i < |ps| && ps[i].state == EMBRYO :: IsMade(ps, forking, i))
    && (forall p, q | p in forking && q in forking && p != q :: forking[p] != forking[q])
  }

  /** e became e' without dying, being born, changing parents or going to sleep in wait(). */
  ghost predicate Mild(e: Entry, e': Entry, i: nat) {
    && e'.parent == e.parent
    && (e'.state == e.state || (CanWait(e) && CanWait(e')))
    && (e'.state == SLEEPING && e'.chan == OfProc(i) ==> e.state == SLEEPING && e.chan == OfProc(i))
  }

  ghost predicate AllMild(ps: seq<Entry>, ps': seq<Entry>) {
    |ps'| == |ps| && forall i | 0 <= i < |ps| :: Mild(ps[i], ps'[i], i)
  }

  lemma MildKeeps(ps: seq<Entry>, ps': seq<Entry>, init: nat, forking: map<nat, nat>)
    requires AllMild(ps, ps') && Parents(ps, init) && NoSleepOverZombie(ps) && Embryos(ps, forking)
    ensures Parents(ps', init) && NoSleepOverZombie(ps') && Embryos(ps', forking)
  {
    forall i: nat | i < |ps'| && i != init && Live(ps'[i]) ensures HasParent(ps', i) {
      assert HasParent(ps, i);
    }
    forall p: nat, c: nat | p < |ps'| && ZombieChild(ps', p, c) ensures !InWait(ps', p) {
      assert ZombieChild(ps, p, c);
    }
    forall p | p in forking ensures Forks(ps', forking, p) {
      assert Forks(ps, forking, p);
    }
    forall i: nat | i < |ps'| && ps'[i].state == EMBRYO ensures IsMade(ps', forking, i) {
      assert IsMade(ps, forking, i);
    }
  }

  // ---- exit() ----

  ghost predicate HasZombie(ps: seq<Entry>, p: nat) { exists c: nat :: ZombieChild(ps, p, c) }

  /** A child of cur passed to init. */
  function Passed(e: Entry, cur: nat, init: nat): Entry {
    if e.parent == Some(cur) then e.(parent := Some(init)) else e
  }

  /** Entry i after exit() of cur, whose parent is p; zombies says that cur had a zombie child. */
  function Exited(e: Entry, i: nat, cur: nat, init: nat, p: nat, zombies: bool): Entry {
    var w := Passed(Wake(e, OfProc(p)), cur, init);
    var v := if zombies then Wake(w, OfProc(init)) else w;
    if i == cur then v.(state := ZOMBIE) else v
  }

  ghost predicate ExitDone(ps: seq<Entry>, ps': seq<Entry>, cur: nat, init: nat) {
    && |ps'| == |ps| && cur < |ps| && ps[cur].parent.Some?
    && forall i | 0 <= i < |ps| :: ps'[i] == Exited(ps[i], i, cur, init, ps[cur].parent.value, HasZombie(ps, cur))
  }

  /** exit()'s loop takes the table from w to v; ps is the table before the first wakeup. */
  ghost predicate PassDone(ps: seq<Entry>, w: seq<Entry>, v: seq<Entry>, cur: nat, init: nat) {
    && |v| == |w| == |ps|
    && forall k | 0 <= k < |ps| ::
         v[k] == var x := Passed(w[k], cur, init); if HasZombie(ps, cur) then Wake(x, OfProc(init)) else x
  }

  /** The three steps of exit(): wake the parent, pass the children (w to v), become a zombie. */
  lemma ExitSteps(ps: seq<Entry>, w: seq<Entry>, v: seq<Entry>, cur: nat, init: nat, p: nat)
    requires cur < |ps| == |w| == |v| && ps[cur].parent == Some(p)
    requires forall k | 0 <= k < |ps| :: w[k] == Wake(ps[k], OfProc(p))
    requires PassDone(ps, w, v, cur, init)
    ensures ExitDone(ps, v[cur := v[cur].(state := ZOMBIE)], cur, init)
  {
    hide HasZombie, Wake, Passed;
  }

  lemma ExitFields(ps: seq<Entry>, ps': seq<Entry>, cur: nat, init: nat, k: nat)
    requires ExitDone(ps, ps', cur, init) && k < |ps|
    ensures ps'[k].pid == ps[k].pid && ps'[k].chan == ps[k].chan && ps'[k].killed == ps[k].killed
    ensures ps'[k].parent == if ps[k].parent == Some(cur) then Some(init) else ps[k].parent
    ensures ps'[k].state ==
              if k == cur then ZOMBIE
              else if && ps[k].state == SLEEPING
                      && (|| ps[k].chan == OfProc(ps[cur].parent.value)
                          || (ps[k].chan == OfProc(init) && HasZombie(ps, cur)))
              then RUNNABLE
              else ps[k].state
  {
    hide HasZombie;
  }

  /** What exit() of cur does to parents and to who can wait. */
  ghost predicate ExitRel(e: Entry, e': Entry, i: nat, cur: nat, init: nat) {
    && e'.parent == (if e.parent == Some(cur) then Some(init) else e.parent)
    && (if i == cur then e'.state == ZOMBIE else e'.state == e.state || (CanWait(e) && CanWait(e')))
  }

  lemma ExitRelAll(ps: seq<Entry>, ps': seq<Entry>, cur: nat, init: nat)
    requires ExitDone(ps, ps', cur, init)
    ensures |ps'| == |ps| && forall i: nat | i < |ps| :: ExitRel(ps[i], ps'[i], i, cur, init)
  {
    hide HasZombie;
  }

  lemma ExitParents(ps: seq<Entry>, ps': seq<Entry>, cur: nat, init: nat)
    requires Parents(ps, init) && ExitDone(ps, ps', cur, init) && ps[cur].state == RUNNING && cur != init
    ensures Parents(ps', init)
  {
    hide HasZombie, Exited, ExitDone;
    ExitRelAll(ps, ps', cur, init);
    assert ExitRel(ps[init], ps'[init], init, cur, init);
    forall i: nat | i < |ps'| && i != init && Live(ps'[i]) ensures HasParent(ps', i) {
      assert ExitRel(ps[i], ps'[i], i, cur, init) && HasParent(ps, i);
      var q := ps[i].parent.value;
      assert ExitRel(ps[q], ps'[q], q, cur, init);
    }
  }

  lemma ExitZombies(ps: seq<Entry>, ps': seq<Entry>, cur: nat, init: nat)
    requires Parents(ps, init) && NoSleepOverZombie(ps) && ExitDone(ps, ps', cur, init)
    requires ps[cur].state == RUNNING && cur != init
    ensures NoSleepOverZombie(ps')
  {
    assert HasParent(ps, cur);
    forall p: nat, c: nat | p < |ps'| && ZombieChild(ps', p, c) ensures !InWait(ps', p) {
      if c != cur {
        assert ZombieChild(ps, ps[c].parent.value, c);
      }
    }
  }

  lemma ExitEmbryos(ps: seq<Entry>, ps': seq<Entry>, cur: nat, init: nat, forking: map<nat, nat>)
    requires Embryos(ps, forking) && ExitDone(ps, ps', cur, init) && cur !in forking && ps[cur].state == RUNNING
    ensures Embryos(ps', forking)
  {
    forall p | p in forking ensures Forks(ps', forking, p) {
      assert Forks(ps, forking, p);
    }
    forall i: nat | i < |ps'| && ps'[i].state == EMBRYO ensures IsMade(ps', forking, i) {
      assert IsMade(ps, forking, i);
    }
  }

  // ---- wait() and fork() ----

  /** An entry that wait() has cleared. */
  function Cleared(e: Entry): Entry { e.(state := UNUSED, pid := 0, parent := None, killed := false) }

  lemma ReapKeeps(ps: seq<Entry>, init: nat, forking: map<nat, nat>, c: nat)
    requires Parents(ps, init) && NoSleepOverZombie(ps) && Embryos(ps, forking)
    requires c < |ps| && ps[c].state == ZOMBIE
    ensures var ps' := ps[c := Cleared(ps[c])];
            Parents(ps', init) && NoSleepOverZombie(ps') && Embryos(ps', forking)
  {
    ChangeOne(ps, init, forking, c, Cleared(ps[c]));
  }

  lemma WaitSleepKeeps(ps: seq<Entry>, init: nat, forking: map<nat, nat>, cur: nat)
    requires Parents(ps, init) && NoSleepOverZombie(ps) && Embryos(ps, forking)
    requires cur < |ps| && ps[cur].state == RUNNING && cur !in forking && !HasZombie(ps, cur)
    ensures var ps' := ps[cur := ps[cur].(state := SLEEPING, chan := OfProc(cur))];
            Parents(ps', init) && NoSleepOverZombie(ps') && Embryos(ps', forking)
  {
    ChangeOne(ps, init, forking, cur, ps[cur].(state := SLEEPING, chan := OfProc(cur)));
  }

  /** Entry c becomes e, which is no new zombie: the conditions under which nobody else notices. */
  lemma ChangeOne(ps: seq<Entry>, init: nat, forking: map<nat, nat>, c: nat, e: Entry)
    requires Parents(ps, init) && NoSleepOverZombie(ps) && Embryos(ps, forking) && c < |ps|
    requires e.state != ZOMBIE
    requires CanWait(ps[c]) ==> CanWait(e) && e.parent == ps[c].parent && c !in forking
    requires ps[c].state == EMBRYO ==>
               e.state == EMBRYO && (e.parent.Some? ==> e.parent.value in forking && forking[e.parent.value] == c)
    requires e.state == UNUSED ==> e.parent == None
    requires ps[c].state in {UNUSED, ZOMBIE} ==> e.state in {UNUSED, EMBRYO} && (e.state == EMBRYO ==> e.parent == None)
    requires e.state == SLEEPING && e.chan == OfProc(c) ==> !HasZombie(ps, c)
    ensures Parents(ps[c := e], init) && NoSleepOverZombie(ps[c := e]) && Embryos(ps[c := e], forking)
  {
    hide Parents, NoSleepOverZombie, Embryos;
    ChangeParents(ps, init, c, e);
    ChangeZombies(ps, c, e);
    ChangeEmbryos(ps, forking, c, e);
  }

  lemma ChangeParents(ps: seq<Entry>, init: nat, c: nat, e: Entry)
    requires Parents(ps, init) && c < |ps| && e.state != ZOMBIE
    requires if CanWait(ps[c]) then CanWait(e) && e.parent == ps[c].parent else e.state in {UNUSED, EMBRYO}
    requires e.state == UNUSED ==> e.parent == None
    ensures Parents(ps[c := e], init)
  {
    var ps' := ps[c := e];
    forall i: nat | i < |ps'| && i != init && Live(ps'[i]) ensures HasParent(ps', i) {
      assert HasParent(ps, i);
    }
  }

  lemma ChangeZombies(ps: seq<Entry>, c: nat, e: Entry)
    requires NoSleepOverZombie(ps) && c < |ps| && e.state != ZOMBIE
    requires e.state == SLEEPING && e.chan == OfProc(c) ==> !HasZombie(ps, c)
    ensures NoSleepOverZombie(ps[c := e])
  {
    var ps' := ps[c := e];
    forall p: nat, d: nat | p < |ps'| && ZombieChild(ps', p, d) ensures !InWait(ps', p) {
      assert ZombieChild(ps, p, d);
    }
  }

  lemma ChangeEmbryos(ps: seq<Entry>, forking: map<nat, nat>, c: nat, e: Entry)
    requires Embryos(ps, forking) && c < |ps| && (CanWait(ps[c]) ==> c !in forking && CanWait(e))
    requires ps[c].state == EMBRYO ==> e.state == EMBRYO
    requires e.state == EMBRYO && e.parent.Some? ==> e.parent.value in forking && forking[e.parent.value] == c
    ensures Embryos(ps[c := e], forking)
  {
    var ps' := ps[c := e];
    forall p | p in forking ensures Forks(ps', forking, p) {
      assert Forks(ps, forking, p);
    }
    forall i: nat | i < |ps'| && ps'[i].state == EMBRYO ensures IsMade(ps', forking, i) {
      if i != c { assert IsMade(ps, forking, i); }
    }
  }

  /** cur starts to make an embryo of the unused entry c. */
  lemma ForkStarts(ps: seq<Entry>, init: nat, forking: map<nat, nat>, cur: nat, c: nat, pid: nat)
    requires Parents(ps, init) && NoSleepOverZombie(ps) && Embryos(ps, forking)
    requires cur < |ps| && ps[cur].state == RUNNING && cur !in forking && c < |ps| && ps[c].state == UNUSED
    ensures var ps' := ps[c := ps[c].(state := EMBRYO, pid := pid)];
            Parents(ps', init) && NoSleepOverZombie(ps') && Embryos(ps', forking[cur := c])
  {
    ChangeOne(ps, init, forking, c, ps[c].(state := EMBRYO, pid := pid));
    var ps', forking' := ps[c := ps[c].(state := EMBRYO, pid := pid)], forking[cur := c];
    forall p | p in forking' ensures Forks(ps', forking', p) {
      if p != cur { assert Forks(ps', forking, p) && Forks(ps, forking, p); }
    }
    forall i: nat | i < |ps'| && ps'[i].state == EMBRYO ensures IsMade(ps', forking', i) {
      assert IsMade(ps', forking, i);
    }
    forall p, q | p in forking' && q in forking' && p != q ensures forking'[p] != forking'[q] {
      if p != cur { assert Forks(ps, forking, p); }
      if q != cur { assert Forks(ps, forking, q); }
    }
  }

  /** cur is done with its embryo c, which is born or given up. */
  lemma ForkEnds(ps: seq<Entry>, init: nat, forking: map<nat, nat>, cur: nat, c: nat, st: ProcState)
    requires Parents(ps, init) && NoSleepOverZombie(ps) && Embryos(ps, forking)
    requires cur in forking && forking[cur] == c && c < |ps|
    requires (st == RUNNABLE && ps[c].parent == Some(cur)) || (st == UNUSED && ps[c].parent == None)
    ensures var ps' := ps[c := ps[c].(state := st)];
            Parents(ps', init) && NoSleepOverZombie(ps') && Embryos(ps', forking - {cur})
  {
    var ps', forking' := ps[c := ps[c].(state := st)], forking - {cur};
    assert Forks(ps, forking, cur);
    forall i: nat | i < |ps'| && i != init && Live(ps'[i]) ensures HasParent(ps', i) {
      if i != c { assert HasParent(ps, i); }
    }
    forall p: nat, d: nat | p < |ps'| && ZombieChild(ps', p, d) ensures !InWait(ps', p) {
      assert ZombieChild(ps, p, d);
    }
    forall p | p in forking' ensures Forks(ps', forking', p) {
      assert Forks(ps, forking, p) && forking[p] != forking[cur];
    }
    forall i: nat | i < |ps'| && ps'[i].state == EMBRYO ensures IsMade(ps', forking', i) {
      assert IsMade(ps, forking, i);
    }
  }

  /** Every zombie can be reaped: its parent can still wait and is not asleep in wait(). */
  lemma ZombieReapable(ps: seq<Entry>, init: nat, c: nat)
    requires Parents(ps, init) && NoSleepOverZombie(ps) && c < |ps| && ps[c].state == ZOMBIE
    ensures ps[c].parent.Some? && ps[c].parent.value < |ps|
    ensures var p := ps[c].parent.value; CanWait(ps[p]) && !InWait(ps, p) && HasZombie(ps, p)
  {
    assert HasParent(ps, c);
    assert ZombieChild(ps, ps[c].parent.value, c);
  }

  class ProcTable {
    const init: nat
    var procs: seq<Entry>
    var nextpid: nat
    ghost var forking: map<nat, nat>

    ghost predicate Valid()
      reads this
    {
      Parents(procs, init) && NoSleepOverZombie(procs) && Embryos(procs, forking)
    }

    /** userinit(): the first entry is init, all others are unused. */
    constructor (n: nat)
      requires n > 0
      ensures Valid() && init == 0 && nextpid == 2 && forking == map[]
      ensures procs == [Entry(RUNNABLE, 1, None, NoChan, false)] +
                       seq(n - 1, _ => Entry(UNUSED, 0, None, NoChan, false))
    {
      init, nextpid, forking := 0, 2, map[];
      procs := [Entry(RUNNABLE, 1, None, NoChan, false)] + seq(n - 1, _ => Entry(UNUSED, 0, None, NoChan, false));
    }

    method Wakeup1(c: Chan)
      modifies this`procs
      ensures procs == Woken(old(procs), c)
      ensures forall k | 0 <= k < |procs| ::
                procs[k] == if old(procs)[k].state == SLEEPING && old(procs)[k].chan == c
                            then old(procs)[k].(state := RUNNABLE) else old(procs)[k]
    {
      var i := 0;
      while i < |procs|
        invariant i <= |procs| == |old(procs)|
        invariant forall k | 0 <= k < i :: procs[k] == Wake(old(procs)[k], c)
        invariant forall k | i <= k < |procs| :: procs[k] == old(procs)[k]
      {
        if procs[i].state == SLEEPING && procs[i].chan == c {
          procs := procs[i := procs[i].(state := RUNNABLE)];
        }
        i := i + 1;
      }
    }

    /** wakeup(chan) */
    method Wakeup(c: Chan)
      requires Valid()
      modifies this`procs
      ensures Valid() && |procs| == |old(procs)|
      ensures forall k | 0 <= k < |procs| ::
                procs[k] == if old(procs)[k].state == SLEEPING && old(procs)[k].chan == c
                            then old(procs)[k].(state := RUNNABLE) else old(procs)[k]
    {
      hide Parents, NoSleepOverZombie, Embryos;
      MildKeeps(procs, Woken(procs, c), init, forking);
      Wakeup1(c);
    }

    /** The scheduler's switch to process p. */
    method Schedule(p: nat)
      requires Valid() && p < |procs| && procs[p].state == RUNNABLE
      modifies this`procs
      ensures Valid() && procs == old(procs)[p := old(procs)[p].(state := RUNNING)]
    {
      hide Parents, NoSleepOverZombie, Embryos;
      MildKeeps(procs, procs[p := procs[p].(state := RUNNING)], init, forking);
      procs := procs[p := procs[p].(state := RUNNING)];
    }

    method Yield(p: nat)
      requires Valid() && p < |procs| && procs[p].state == RUNNING
      modifies this`procs
      ensures Valid() && procs == old(procs)[p := old(procs)[p].(state := RUNNABLE)]
    {
      hide Parents, NoSleepOverZombie, Embryos;
      MildKeeps(procs, procs[p := procs[p].(state := RUNNABLE)], init, forking);
      procs := procs[p := procs[p].(state := RUNNABLE)];
    }

    /** sleep(chan, lk) on anything but a process's own table entry. */
    method SleepOn(p: nat, c: Chan)
      requires Valid() && p < |procs| && procs[p].state == RUNNING && !c.OfProc?
      modifies this`procs
      ensures Valid() && procs == old(procs)[p := old(procs)[p].(state := SLEEPING, chan := c)]
    {
      hide Parents, NoSleepOverZombie, Embryos;
      MildKeeps(procs, procs[p := procs[p].(state := SLEEPING, chan := c)], init, forking);
      procs := procs[p := procs[p].(state := SLEEPING, chan := c)];
    }

    /** kill(pid): marks the first process with that pid and wakes it if it sleeps. */
    method Kill(pid: nat) returns (ok: bool)
      requires Valid()
      modifies this`procs
      ensures Valid()
      ensures !ok ==> procs == old(procs) && forall i | 0 <= i < |procs| :: procs[i].pid != pid
      ensures ok ==> exists k | 0 <= k < |old(procs)| ::
                && old(procs)[k].pid == pid && (forall i | 0 <= i < k :: old(procs)[i].pid != pid)
                && procs == old(procs)[k := old(procs)[k].(
                                         killed := true,
                                         state := if old(procs)[k].state == SLEEPING then RUNNABLE
                                                  else old(procs)[k].state)]
    {
      hide Parents, NoSleepOverZombie, Embryos;
      var i := 0;
      while i < |procs|
        invariant i <= |procs| && procs == old(procs)
        invariant forall k | 0 <= k < i :: procs[k].pid != pid
      {
        if procs[i].pid == pid {
          ghost var e := procs[i];
          MildKeeps(procs, procs[i := Killed(e)], init, forking);
          procs := procs[i := procs[i].(killed := true)];
          if procs[i].state == SLEEPING {
            procs := procs[i := procs[i].(state := RUNNABLE)];
          }
          assert old(procs)[i].pid == pid && procs == old(procs)[i := Killed(e)];
          return true;
        }
        i := i + 1;
      }
      ok := false;
    }

    /** exit() under ptable.lock; false where it panics because init exits. */
    method Exit(cur: nat) returns (ok: bool)
      requires Valid() && cur < |procs| && procs[cur].state == RUNNING && cur !in forking
      modifies this`procs
      ensures Valid()
      ensures ok <==> cur != init
      ensures !ok ==> procs == old(procs)
      ensures |procs| == |old(procs)|
      ensures ok ==> old(procs)[cur].parent.Some? && forall k | 0 <= k < |procs| ::
                var (e, e') := (old(procs)[k], procs[k]);
                && e'.pid == e.pid && e'.chan == e.chan && e'.killed == e.killed
                && e'.parent == (if e.parent == Some(cur) then Some(init) else e.parent)
                && e'.state == (if k == cur then ZOMBIE
                                else if && e.state == SLEEPING
                                        && (|| e.chan == OfProc(old(procs)[cur].parent.value)
                                            || (e.chan == OfProc(init) && HasZombie(old(procs), cur)))
                                then RUNNABLE
                                else e.state)
    {
      hide HasZombie, Wake, PassDone, ExitDone, NoSleepOverZombie, Embryos;
      if cur == init { return false; }
      ghost var ps := procs;
      assert HasParent(procs, cur);
      var p := procs[cur].parent.value;
      Wakeup1(OfProc(p));
      ghost var w := procs;
      PassChildren(cur, ps);
      ExitSteps(ps, w, procs, cur, init, p);
      procs := procs[cur := procs[cur].(state := ZOMBIE)];
      ExitParents(ps, procs, cur, init);
      ExitZombies(ps, procs, cur, init);
      ExitEmbryos(ps, procs, cur, init, forking);
      forall k: nat | k < |procs| { ExitFields(ps, procs, cur, init, k); }
      ok := true;
    }

    /** exit()'s loop that passes abandoned children to init; ps is the table before the first wakeup. */
    method PassChildren(cur: nat, ghost ps: seq<Entry>)
      requires |procs| == |ps|
      requires forall k | 0 <= k < |ps| ::
                 procs[k].parent == ps[k].parent && (procs[k].state == ZOMBIE <==> ps[k].state == ZOMBIE)
      modifies this`procs
      ensures PassDone(ps, old(procs), procs, cur, init)
    {
      ghost var zombies := false;
      var i := 0;
      while i < |procs|
        invariant i <= |procs| == |ps|
        invariant forall k | 0 <= k < |procs| ::
                    procs[k] == var x := if k < i then Passed(old(procs)[k], cur, init) else old(procs)[k];
                                if zombies then Wake(x, OfProc(init)) else x
        invariant zombies <==> exists c: nat :: c < i && ZombieChild(ps, cur, c)
      {
        assert ZombieChild(ps, cur, i) <==> procs[i].parent == Some(cur) && procs[i].state == ZOMBIE;
        if procs[i].parent == Some(cur) {
          procs := procs[i := procs[i].(parent := Some(init))];
          if procs[i].state == ZOMBIE {
            Wakeup1(OfProc(init));
            zombies := true;
          }
        }
        i := i + 1;
      }
      assert zombies <==> HasZombie(ps, cur);
    }

    /** One pass of wait()'s loop. */
    method Wait(cur: nat) returns (r: WaitResult)
      requires Valid() && cur < |procs| && procs[cur].state == RUNNING && cur !in forking
      modifies this`procs
      ensures Valid()
      ensures r.Reaped? <==>
                exists c | 0 <= c < |old(procs)| :: old(procs)[c].parent == Some(cur) && old(procs)[c].state == ZOMBIE
      ensures r.Reaped? ==> exists c | 0 <= c < |old(procs)| ::
                && old(procs)[c].parent == Some(cur) && old(procs)[c].state == ZOMBIE && r.pid == old(procs)[c].pid
                && procs == old(procs)[c := Entry(UNUSED, 0, None, old(procs)[c].chan, false)]
      ensures r == NoChildren ==>
                && procs == old(procs)
                && (procs[cur].killed || forall c | 0 <= c < |procs| :: procs[c].parent != Some(cur))
      ensures r == Sleeps ==>
                && procs == old(procs)[cur := old(procs)[cur].(state := SLEEPING, chan := OfProc(cur))]
                && !old(procs)[cur].killed && exists c | 0 <= c < |procs| :: procs[c].parent == Some(cur)
    {
      hide Parents, NoSleepOverZombie, Embryos;
      var havekids := false;
      var i := 0;
      while i < |procs|
        invariant i <= |procs| && procs == old(procs)
        invariant forall c | 0 <= c < i :: !(procs[c].parent == Some(cur) && procs[c].state == ZOMBIE)
        invariant havekids <==> exists c | 0 <= c < i :: procs[c].parent == Some(cur)
      {
        if procs[i].parent == Some(cur) {
          havekids := true;
          if procs[i].state == ZOMBIE {
            var pid := procs[i].pid;
            ReapKeeps(procs, init, forking, i);
            procs := procs[i := procs[i].(state := UNUSED, pid := 0, parent := None, killed := false)];
            return Reaped(pid);
          }
        }
        i := i + 1;
      }
      assert !HasZombie(procs, cur);
      if !havekids || procs[cur].killed {
        return NoChildren;
      }
      ghost var kid :| 0 <= kid < |procs| && procs[kid].parent == Some(cur);
      WaitSleepKeeps(procs, init, forking, cur);
      procs := procs[cur := procs[cur].(state := SLEEPING, chan := OfProc(cur))];
      assert procs[kid].parent == Some(cur);
      r := Sleeps;
    }

    /** allocproc() for fork() by cur: the first unused entry becomes an embryo. */
    method AllocProc(cur: nat) returns (r: Option<nat>)
      requires Valid() && cur < |procs| && procs[cur].state == RUNNING && cur !in forking
      modifies this`procs, this`nextpid, this`forking
      ensures Valid()
      ensures r.None? ==>
                && procs == old(procs) && forking == old(forking)
                && forall i | 0 <= i < |procs| :: procs[i].state != UNUSED
      ensures r.Some? ==>
                && r.value < |old(procs)| && old(procs)[r.value].state == UNUSED
                && (forall i | 0 <= i < r.value :: old(procs)[i].state != UNUSED)
                && procs == old(procs)[r.value := old(procs)[r.value].(state := EMBRYO, pid := old(nextpid))]
                && nextpid == old(nextpid) + 1 && forking == old(forking)[cur := r.value]
    {
      hide Parents, NoSleepOverZombie, Embryos;
      var i := 0;
      while i < |procs|
        invariant i <= |procs| && procs == old(procs)
        invariant forall k | 0 <= k < i :: procs[k].state != UNUSED
      {
        if procs[i].state == UNUSED {
          ForkStarts(procs, init, forking, cur, i, nextpid);
          procs := procs[i := procs[i].(state := EMBRYO, pid := nextpid)];
          nextpid := nextpid + 1;
          forking := forking[cur := i];
          return Some(i);
        }
        i := i + 1;
      }
      r := None;
    }

    /** np->parent = curproc */
    method SetParent(cur: nat, np: nat)
      requires Valid() && np < |procs| && cur in forking && forking[cur] == np && procs[np].parent == None
      modifies this`procs
      ensures Valid() && procs == old(procs)[np := old(procs)[np].(parent := Some(cur))]
    {
      hide NoSleepOverZombie;
      assert Forks(procs, forking, cur);
      ChangeOne(procs, init, forking, np, procs[np].(parent := Some(cur)));
      procs := procs[np := procs[np].(parent := Some(cur))];
    }

    /** The end of fork(): the child becomes runnable. */
    method ForkDone(cur: nat, np: nat)
      requires Valid() && np < |procs| && cur in forking && forking[cur] == np && procs[np].parent == Some(cur)
      modifies this`procs, this`forking
      ensures Valid() && forking == old(forking) - {cur}
      ensures procs == old(procs)[np := old(procs)[np].(state := RUNNABLE)]
    {
      hide Parents, NoSleepOverZombie;
      assert Forks(procs, forking, cur);
      ForkEnds(procs, init, forking, cur, np, RUNNABLE);
      procs := procs[np := procs[np].(state := RUNNABLE)];
      forking := forking - {cur};
    }

    /** fork()'s failure path after copyuvm() found no memory. */
    method ForkFailed(cur: nat, np: nat)
      requires Valid() && np < |procs| && cur in forking && forking[cur] == np && procs[np].parent == None
      modifies this`procs, this`forking
      ensures Valid() && forking == old(forking) - {cur}
      ensures procs == old(procs)[np := old(procs)[np].(state := UNUSED)]
    {
      hide Parents, NoSleepOverZombie;
      assert Forks(procs, forking, cur);
      ForkEnds(procs, init, forking, cur, np, UNUSED);
      procs := procs[np := procs[np].(state := UNUSED)];
      forking := forking - {cur};
    }
  }
}
