/**
 The two maps of the eBPF backend, the connections known by key and the keys by inode, as a state
 machine. A step is what happens between taking and releasing the lock.
 */
module EbpfIndex {
  import opened Types
  import opened Scan

  datatype Index = Index(known: Known, inodeConn: map<nat, ConnectionKey>)

  const EMPTY := Index(map[], map[])

  datatype Step =
    | Opened(conn: Connection)
    | InodeClosed(inode: nat)
    | Forgotten(key: ConnectionKey)

  function Apply(s: Index, step: Step): Index {
    match step
    case Opened(c) =>
      var key := c.Key();
      if key in s.known then s
      else Index(s.known[key := c], if c.inode > 0 then s.inodeConn[c.inode := key] else s.inodeConn)
    case InodeClosed(inode) =>
      if inode in s.inodeConn && s.inodeConn[inode] in s.known
      then Index(s.known - {s.inodeConn[inode]}, s.inodeConn - {inode})
      else s
    case Forgotten(key) =>
      if key in s.known
      then Index(s.known - {key}, if s.known[key].inode > 0 then s.inodeConn - {s.known[key].inode} else s.inodeConn)
      else s
  }

  /** The state after the first n steps. */
  function Run(start: Index, steps: seq<Step>, n: nat): Index
    requires n <= |steps|
  {
    if n == 0 then start else Apply(Run(start, steps, n - 1), steps[n - 1])
  }

  // ----- The index is a partial inverse

  ghost predicate IsPartialInverse(s: Index) {
    && (forall k :: k in s.known ==> s.known[k].Key() == k)
    && (forall i :: i in s.inodeConn ==> i > 0 && s.inodeConn[i] in s.known && s.known[s.inodeConn[i]].inode == i)
  }

  lemma StepKeepsInverse(s: Index, step: Step)
    requires IsPartialInverse(s)
    ensures IsPartialInverse(Apply(s, step))
  {}

  /** Whatever happens, at every release of the lock. */
  lemma {:induction false} RunKeepsInverse(start: Index, steps: seq<Step>, n: nat)
    requires n <= |steps| && IsPartialInverse(start)
    ensures IsPartialInverse(Run(start, steps, n))
  {
    if n > 0 {
      RunKeepsInverse(start, steps, n - 1);
      StepKeepsInverse(Run(start, steps, n - 1), steps[n - 1]);
    }
  }

  /** Different inodes lead to different keys, and an indexed inode always finds its connection. */
  lemma RunIndexIsExact(steps: seq<Step>, n: nat, i: nat, j: nat)
    requires n <= |steps|
    ensures var s := Run(EMPTY, steps, n);
            && (i in s.inodeConn ==> s.inodeConn[i] in s.known && s.known[s.inodeConn[i]].inode == i)
            && (i in s.inodeConn && j in s.inodeConn && i != j ==> s.inodeConn[i] != s.inodeConn[j])
  {
    RunKeepsInverse(EMPTY, steps, n);
  }

  // ----- When the index misses no connection

  /** Every known connection with an inode is found by it. */
  ghost predicate IsComplete(s: Index) {
    forall k :: k in s.known && s.known[k].inode > 0 ==>
      s.known[k].inode in s.inodeConn && s.inodeConn[s.known[k].inode] == k
  }

  /** The step opens a connection under an inode that another known connection has. */
  ghost predicate Clashes(s: Index, step: Step) {
    && step.Opened? && step.conn.Key() !in s.known && step.conn.inode > 0
    && exists k :: k in s.known && s.known[k].inode == step.conn.inode
  }

  /** Exactly a clash makes the index incomplete. */
  lemma StepKeepsCompleteIff(s: Index, step: Step)
    requires IsPartialInverse(s) && IsComplete(s)
    ensures IsComplete(Apply(s, step)) <==> !Clashes(s, step)
  {
    var t := Apply(s, step);
    if Clashes(s, step) {
      var k :| k in s.known && s.known[k].inode == step.conn.inode;
      assert k in t.known && t.known[k].inode == step.conn.inode && t.inodeConn[step.conn.inode] == step.conn.Key();
    }
  }

  ghost predicate NeverClashes(steps: seq<Step>, n: nat)
    requires n <= |steps|
  {
    forall m :: 0 <= m < n ==> !ClashesAt(steps, m)
  }

  ghost predicate ClashesAt(steps: seq<Step>, m: nat)
    requires m < |steps|
  {
    Clashes(Run(EMPTY, steps, m), steps[m])
  }

  ghost predicate AlwaysComplete(steps: seq<Step>, n: nat)
    requires n <= |steps|
  {
    forall m :: 0 <= m <= n ==> IsComplete(Run(EMPTY, steps, m))
  }

  lemma {:induction false} NoClashMeansComplete(steps: seq<Step>, n: nat, m: nat)
    requires m <= n <= |steps| && NeverClashes(steps, n)
    ensures IsComplete(Run(EMPTY, steps, m))
  {
    if m > 0 {
      NoClashMeansComplete(steps, n, m - 1);
      CompleteOneMore(steps, m - 1);
    }
  }

  lemma CompleteOneMore(steps: seq<Step>, m: nat)
    requires m < |steps| && IsComplete(Run(EMPTY, steps, m))
    ensures IsComplete(Run(EMPTY, steps, m + 1)) <==> !ClashesAt(steps, m)
  {
    RunKeepsInverse(EMPTY, steps, m);
    StepKeepsCompleteIff(Run(EMPTY, steps, m), steps[m]);
  }

  /** Over a whole run the index misses no connection if and only if no step ever clashes. */
  lemma RunIsCompleteIff(steps: seq<Step>, n: nat)
    requires n <= |steps|
    ensures AlwaysComplete(steps, n) <==> NeverClashes(steps, n)
  {
    if NeverClashes(steps, n) {
      forall m | 0 <= m <= n ensures IsComplete(Run(EMPTY, steps, m)) {
        NoClashMeansComplete(steps, n, m);
      }
    }
    if AlwaysComplete(steps, n) {
      forall m | 0 <= m < n ensures !ClashesAt(steps, m) {
        assert IsComplete(Run(EMPTY, steps, m)) && IsComplete(Run(EMPTY, steps, m + 1));
        CompleteOneMore(steps, m);
      }
    }
  }

  /** Closing its inode removes a connection if and only if the index leads to it, and removes nothing more. */
  lemma CloseRemovesIff(s: Index, k: ConnectionKey)
    requires IsPartialInverse(s) && k in s.known && s.known[k].inode > 0
    ensures var i, t := s.known[k].inode, Apply(s, InodeClosed(s.known[k].inode));
            && (k !in t.known <==> i in s.inodeConn && s.inodeConn[i] == k)
            && (k !in t.known ==> t == Index(s.known - {k}, s.inodeConn - {i}))
  {}

  /** k is known, but its inode leads elsewhere or nowhere. */
  ghost predicate Missed(s: Index, k: ConnectionKey) {
    k in s.known && s.known[k].inode > 0 &&
    !(s.known[k].inode in s.inodeConn && s.inodeConn[s.known[k].inode] == k)
  }

  /** A missed connection goes only by being forgotten, and until then no step, of a resync or not, indexes it. */
  lemma MissedUntilForgotten(s: Index, step: Step, k: ConnectionKey)
    requires IsPartialInverse(s) && Missed(s, k)
    ensures if step == Forgotten(k) then k !in Apply(s, step).known else Missed(Apply(s, step), k)
  {}

  /** So over any steps: samples and resyncs leave it unindexed as long as it is not forgotten. */
  lemma {:induction false} RunNeverIndexesMissed(start: Index, steps: seq<Step>, n: nat, k: ConnectionKey)
    requires n <= |steps| && IsPartialInverse(start) && Missed(start, k)
    requires forall m :: 0 <= m < n ==> steps[m] != Forgotten(k)
    ensures Missed(Run(start, steps, n), k)
  {
    if n > 0 {
      RunNeverIndexesMissed(start, steps, n - 1, k);
      RunKeepsInverse(start, steps, n - 1);
      MissedUntilForgotten(Run(start, steps, n - 1), steps[n - 1], k);
    }
  }

  /** What s misses and t still knows, t misses. */
  ghost predicate StaysMissed(s: Index, t: Index) {
    forall k :: Missed(s, k) && k in t.known ==> Missed(t, k)
  }

  lemma StepStaysMissed(s: Index, step: Step)
    requires IsPartialInverse(s)
    ensures StaysMissed(s, Apply(s, step))
  {
    forall k | Missed(s, k) && k in Apply(s, step).known ensures Missed(Apply(s, step), k) {
      MissedUntilForgotten(s, step, k);
    }
  }

  /** Growing first and shrinking then, nothing leaves and comes back in between. */
  lemma StaysMissedLonger(s: Index, m: Index, t: Index)
    requires StaysMissed(s, m) && StaysMissed(m, t)
    requires s.known.Keys <= m.known.Keys || t.known.Keys <= m.known.Keys
    ensures StaysMissed(s, t)
  {}

  /** A clash that happens: a resync finds a socket under another owner; forgetting the old key unindexes the new. */
  lemma OwnerChangeIsMissed(a: Connection, b: Connection)
    requires a.inode == b.inode > 0 && a.Key() != b.Key()
    ensures var s := Run(EMPTY, [Opened(a), Opened(b), Forgotten(a.Key())], 3);
            s.known == map[b.Key() := b] && s.inodeConn == map[] && Missed(s, b.Key())
  {
    var steps := [Opened(a), Opened(b), Forgotten(a.Key())];
    assert Run(EMPTY, steps, 1) == Index(map[a.Key() := a], map[a.inode := a.Key()]);
    assert Run(EMPTY, steps, 2) == Index(map[a.Key() := a, b.Key() := b], map[a.inode := b.Key()]);
    assert Run(EMPTY, steps, 3) == Index(map[b.Key() := b], map[]);
  }

  /** A clash that happens: one inode reused under another port. */
  lemma ReusedInodeIsMissed(a: Connection, b: Connection)
    requires a.inode == b.inode > 0 && a.Key() != b.Key()
    ensures var s := Run(EMPTY, [Opened(a), Opened(b), InodeClosed(a.inode)], 3);
            s.known == map[a.Key() := a] && s.inodeConn == map[]
  {
    var steps := [Opened(a), Opened(b), InodeClosed(a.inode)];
    assert Run(EMPTY, steps, 1) == Index(map[a.Key() := a], map[a.inode := a.Key()]);
    assert Run(EMPTY, steps, 2) == Index(map[a.Key() := a, b.Key() := b], map[a.inode := b.Key()]);
  }

  // ----- Replaying runs of steps

  lemma {:induction false} RunPrefix(start: Index, a: seq<Step>, b: seq<Step>, n: nat)
    requires n <= |a| && n <= |b| && forall i :: 0 <= i < n ==> a[i] == b[i]
    ensures Run(start, a, n) == Run(start, b, n)
  {
    if n > 0 {
      RunPrefix(start, a, b, n - 1);
    }
  }

  lemma RunSnoc(start: Index, steps: seq<Step>, step: Step)
    ensures Run(start, steps + [step], |steps| + 1) == Apply(Run(start, steps, |steps|), step)
  {
    RunPrefix(start, steps, steps + [step], |steps|);
  }
}
