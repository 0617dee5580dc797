/**
 * The processes of a lease's tree (src/descendants.js): `Scan` records what descends from the leader, from a recorded
 * member or from a marked process, each with its start token; `Reap` signals what is still alive under the recorded
 * token. A process table is an input: a list of rows with distinct pids, or nothing when it could not be read.
 */
module Descendants {
  import opened Common

  type Pid = int

  /** A start token; None is the token of a process that exists but could not be read. */
  type Token = Option<string>

  datatype Row = Row(pid: Pid, ppid: Pid, token: Token, marked: bool, unknown: bool)

  predicate DistinctPids(rows: seq<Row>) { forall i, j :: 0 <= i < j < |rows| ==> rows[i].pid != rows[j].pid }

  /** Row `i` has `pid` and the token `token`. */
  predicate HasToken(rows: seq<Row>, pid: Pid, token: Token)
  {
    exists i :: 0 <= i < |rows| && rows[i].pid == pid && rows[i].token == token
  }

  function TokenOf(rows: seq<Row>, pid: Pid): (r: Option<Token>)
    ensures r.Some? ==> HasToken(rows, pid, r.value)
    ensures r.None? ==> forall i :: 0 <= i < |rows| ==> rows[i].pid != pid
  {
    if rows == [] then None
    else if rows[0].pid == pid then Some(rows[0].token)
    else
      var r := TokenOf(rows[1..], pid);
      assert r.Some? ==> forall i :: 0 <= i < |rows[1..]| ==> rows[1..][i] == rows[i + 1];
      r
  }

  // ---------------------------------------------------------------- what the tree is

  /** The leader and the recorded members whose token still matches. */
  function Matching(rows: seq<Row>, root: Option<Pid>, rootToken: Token, recorded: map<Pid, Token>): set<Pid>
  {
    (if root.Some? && rootToken.Some? && TokenOf(rows, root.value) == Some(rootToken) then {root.value} else {})
    + (set p | p in recorded && TokenOf(rows, p) == Some(recorded[p]))
  }

  /** Where the walk starts: the leader and the recorded members whose token still matches, and the marked processes. */
  function Starts(
    rows: seq<Row>, root: Option<Pid>, rootToken: Token, recorded: map<Pid, Token>, prot: set<Pid>): set<Pid>
  {
    Matching(rows, root, rootToken, recorded) + (set r | r in rows && r.marked && r.pid !in prot :: r.pid)
  }

  /** `child` is an unprotected process whose parent is `parent`. */
  predicate ChildOf(rows: seq<Row>, prot: set<Pid>, parent: Pid, child: Pid)
  {
    exists i :: 0 <= i < |rows| && rows[i].pid == child && rows[i].ppid == parent && child !in prot
  }

  ghost predicate IsPath(rows: seq<Row>, prot: set<Pid>, starts: set<Pid>, path: seq<Pid>)
  {
    && path != [] && path[0] in starts
    && forall i :: 1 <= i < |path| ==> ChildOf(rows, prot, path[i - 1], path[i])
  }

  ghost predicate Reachable(rows: seq<Row>, prot: set<Pid>, starts: set<Pid>, pid: Pid)
  {
    exists path :: IsPath(rows, prot, starts, path) && path[|path| - 1] == pid
  }

  /** A row the scan records: unprotected, and marked or a child of a reachable process. */
  ghost predicate IsMember(rows: seq<Row>, prot: set<Pid>, starts: set<Pid>, r: Row)
  {
    r in rows && r.pid !in prot && (r.marked || Reachable(rows, prot, starts, r.ppid))
  }

  /** The records after a scan: members with their current token, every other record as before. */
  ghost predicate ScanResult(
    rows: seq<Row>, prot: set<Pid>, starts: set<Pid>, before: map<Pid, Token>, after: map<Pid, Token>)
  {
    && (forall r :: IsMember(rows, prot, starts, r) ==> r.pid in after && after[r.pid] == r.token)
    && (forall p :: p in before ==> p in after)
    && (forall p :: p in after ==>
          || (p in before && after[p] == before[p])
          || exists r :: IsMember(rows, prot, starts, r) && r.pid == p && after[p] == r.token)
  }

  // ---------------------------------------------------------------- the worklist

  datatype Walk = Walk(recorded: map<Pid, Token>, seen: set<Pid>, stack: seq<Pid>)

  function Admit(w: Walk, r: Row): Walk
  {
    var recorded := w.recorded[r.pid := r.token];
    if r.pid in w.seen then w.(recorded := recorded) else Walk(recorded, w.seen + {r.pid}, w.stack + [r.pid])
  }

  /** Everything seen is reachable, and every record changed so far is of a member. */
  ghost predicate Sound(rows: seq<Row>, prot: set<Pid>, starts: set<Pid>, before: map<Pid, Token>, w: Walk)
  {
    && (forall p :: p in w.stack ==> p in w.seen)
    && (forall p :: p in w.seen ==> Reachable(rows, prot, starts, p))
    && (forall p :: p in before ==> p in w.recorded)
    && (forall p :: p in w.recorded ==>
          || (p in before && w.recorded[p] == before[p])
          || exists r :: IsMember(rows, prot, starts, r) && r.pid == p && w.recorded[p] == r.token)
  }

  /** `r` is seen and recorded under its current token. */
  predicate Taken(w: Walk, r: Row) { r.pid in w.seen && r.pid in w.recorded && w.recorded[r.pid] == r.token }

  /** The unprotected children of `p`. */
  predicate ChildRow(prot: set<Pid>, p: Pid, r: Row) { r.ppid == p && r.pid !in prot }

  /** Children of every processed process are taken; `open` is still being processed. */
  ghost predicate Complete(rows: seq<Row>, prot: set<Pid>, w: Walk, open: set<Pid>)
  {
    && (forall r :: r in rows && r.marked && r.pid !in prot ==> Taken(w, r))
    && (forall r, p :: r in rows && p in w.seen && p !in w.stack && p !in open && ChildRow(prot, p, r) ==> Taken(w, r))
  }

  lemma ReachChild(rows: seq<Row>, prot: set<Pid>, starts: set<Pid>, r: Row)
    requires r in rows && r.pid !in prot && Reachable(rows, prot, starts, r.ppid)
    ensures Reachable(rows, prot, starts, r.pid)
  {
    var path :| IsPath(rows, prot, starts, path) && path[|path| - 1] == r.ppid;
    var longer := path + [r.pid];
    assert ChildOf(rows, prot, r.ppid, r.pid);
    assert IsPath(rows, prot, starts, longer) by {
      forall i | 1 <= i < |longer| ensures ChildOf(rows, prot, longer[i - 1], longer[i]) {
        if i < |path| { assert longer[i - 1] == path[i - 1] && longer[i] == path[i]; }
      }
    }
    assert longer[|longer| - 1] == r.pid;
  }

  lemma StartIsReachable(rows: seq<Row>, prot: set<Pid>, starts: set<Pid>, p: Pid)
    requires p in starts
    ensures Reachable(rows, prot, starts, p)
  {
    assert IsPath(rows, prot, starts, [p]) && [p][|[p]| - 1] == p;
  }

  /** A seen set closed under unprotected children holds every reachable process. */
  lemma {:induction false} ClosedHoldsReachable(
    rows: seq<Row>, prot: set<Pid>, starts: set<Pid>, seen: set<Pid>, path: seq<Pid>)
    requires starts <= seen && forall r :: r in rows && r.ppid in seen && r.pid !in prot ==> r.pid in seen
    requires IsPath(rows, prot, starts, path)
    ensures path[|path| - 1] in seen
    decreases |path|
  {
    if |path| > 1 {
      var shorter := path[..|path| - 1];
      assert IsPath(rows, prot, starts, shorter) by {
        forall i | 1 <= i < |shorter| ensures ChildOf(rows, prot, shorter[i - 1], shorter[i]) {
          assert ChildOf(rows, prot, path[i - 1], path[i]);
        }
      }
      ClosedHoldsReachable(rows, prot, starts, seen, shorter);
      assert ChildOf(rows, prot, path[|path| - 2], path[|path| - 1]);
      var i :| 0 <= i < |rows| && rows[i].pid == path[|path| - 1] && rows[i].ppid == path[|path| - 2];
      assert rows[i] in rows;
    }
  }

  lemma AdmitKeepsSound(rows: seq<Row>, prot: set<Pid>, starts: set<Pid>, before: map<Pid, Token>, w: Walk, r: Row)
    requires Sound(rows, prot, starts, before, w) && IsMember(rows, prot, starts, r)
    requires Reachable(rows, prot, starts, r.pid)
    ensures Sound(rows, prot, starts, before, Admit(w, r))
  {}

  /** Recording one row never unsettles another: rows have distinct pids. */
  lemma AdmitKeepsTaken(rows: seq<Row>, w: Walk, r: Row, q: Row)
    requires DistinctPids(rows) && r in rows && q in rows
    ensures Taken(Admit(w, r), r)
    ensures Taken(w, q) ==> Taken(Admit(w, r), q)
  {}

  /** The marked rows, admitted before the walk. */
  method AdmitMarked(rows: seq<Row>, prot: set<Pid>, ghost starts: set<Pid>, w0: Walk) returns (w: Walk)
    requires DistinctPids(rows) && Sound(rows, prot, starts, w0.recorded, w0)
    requires forall r :: r in rows && r.marked && r.pid !in prot ==> r.pid in starts
    requires forall p :: p in w0.seen ==> p in w0.stack
    ensures Sound(rows, prot, starts, w0.recorded, w) && Complete(rows, prot, w, {})
    ensures w0.seen <= w.seen && forall r :: r in rows && r.marked && r.pid !in prot ==> r.pid in w.seen
  {
    w := w0;
    for i := 0 to |rows|
      invariant Sound(rows, prot, starts, w0.recorded, w)
      invariant w0.seen <= w.seen && forall p :: p in w.seen ==> p in w.stack
      invariant forall k :: 0 <= k < i && rows[k].marked && rows[k].pid !in prot ==> Taken(w, rows[k])
    {
      var r := rows[i];
      if r.marked && r.pid !in prot {
        StartIsReachable(rows, prot, starts, r.pid);
        AdmitKeepsSound(rows, prot, starts, w0.recorded, w, r);
        forall k | 0 <= k <= i ensures Taken(w, rows[k]) || k == i ==> Taken(Admit(w, r), rows[k]) {
          AdmitKeepsTaken(rows, w, r, rows[k]);
        }
        w := Admit(w, r);
      }
    }
  }

  /** The walk while `p` is open and its children among the first `i` rows are taken. */
  ghost predicate Visiting(
    rows: seq<Row>, prot: set<Pid>, starts: set<Pid>, before: map<Pid, Token>, p: Pid, i: nat, w: Walk)
    requires i <= |rows|
  {
    && Sound(rows, prot, starts, before, w) && Complete(rows, prot, w, {p}) && p in w.seen
    && forall k :: 0 <= k < i && ChildRow(prot, p, rows[k]) ==> Taken(w, rows[k])
  }

  lemma VisitOne(rows: seq<Row>, prot: set<Pid>, starts: set<Pid>, before: map<Pid, Token>, p: Pid, i: nat, w: Walk)
    requires DistinctPids(rows) && i < |rows| && Visiting(rows, prot, starts, before, p, i, w)
    requires ChildRow(prot, p, rows[i])
    ensures Visiting(rows, prot, starts, before, p, i + 1, Admit(w, rows[i])) && w.seen <= Admit(w, rows[i]).seen
    ensures Work(rows, starts, Admit(w, rows[i])) <= Work(rows, starts, w)
  {
    var child := rows[i];
    ReachChild(rows, prot, starts, child);
    AdmitKeepsSound(rows, prot, starts, before, w, child);
    AdmitKeepsComplete(rows, prot, w, {p}, child);
    AdmitWork(rows, starts, w, child);
    forall k | 0 <= k <= i ensures Taken(w, rows[k]) || k == i ==> Taken(Admit(w, child), rows[k]) {
      AdmitKeepsTaken(rows, w, child, rows[k]);
    }
  }

  /** Visit one process: admit each unprotected child that is new or carries another token than recorded. */
  method VisitChildren(
    rows: seq<Row>, prot: set<Pid>, ghost starts: set<Pid>, ghost before: map<Pid, Token>, p: Pid, w0: Walk)
    returns (w: Walk)
    requires DistinctPids(rows) && Sound(rows, prot, starts, before, w0) && Complete(rows, prot, w0, {p})
    requires p in w0.seen
    ensures Sound(rows, prot, starts, before, w) && Complete(rows, prot, w, {})
    ensures Work(rows, starts, w) <= Work(rows, starts, w0) && w0.seen <= w.seen
  {
    w := w0;
    for i := 0 to |rows|
      invariant Visiting(rows, prot, starts, before, p, i, w)
      invariant Work(rows, starts, w) <= Work(rows, starts, w0) && w0.seen <= w.seen
    {
      var child := rows[i];
      if ChildRow(prot, p, child)
        && (child.pid !in w.seen || child.pid !in w.recorded || w.recorded[child.pid] != child.token) {
        VisitOne(rows, prot, starts, before, p, i, w);
        w := Admit(w, child);
      }
    }
  }

  lemma AdmitKeepsComplete(rows: seq<Row>, prot: set<Pid>, w: Walk, open: set<Pid>, r: Row)
    requires DistinctPids(rows) && r in rows && Complete(rows, prot, w, open)
    ensures Complete(rows, prot, Admit(w, r), open)
  {
    forall q | q in rows ensures Taken(w, q) ==> Taken(Admit(w, r), q) { AdmitKeepsTaken(rows, w, r, q); }
  }

  /** Twice the processes not yet seen, plus those waiting on the stack. */
  ghost function Work(rows: seq<Row>, starts: set<Pid>, w: Walk): nat
  {
    2 * |(starts + (set r | r in rows :: r.pid)) - w.seen| + |w.stack|
  }

  lemma AdmitWork(rows: seq<Row>, starts: set<Pid>, w: Walk, r: Row)
    requires r in rows
    ensures Work(rows, starts, Admit(w, r)) <= Work(rows, starts, w)
  {
    if r.pid !in w.seen {
      var all := starts + (set q | q in rows :: q.pid);
      assert all - (w.seen + {r.pid}) == (all - w.seen) - {r.pid};
    }
  }

  lemma EmptyOrNot(s: set<Pid>) ensures s == {} || exists p :: p in s { if forall p :: p !in s { assert s == {}; } }

  /** The recorded members whose token still matches, pushed after what is on the stack. */
  method PushMatching(rows: seq<Row>, recorded: map<Pid, Token>, stack0: seq<Pid>) returns (stack: seq<Pid>)
    ensures forall p :: p in stack <==> p in stack0 || (p in recorded && TokenOf(rows, p) == Some(recorded[p]))
  {
    stack := stack0;
    var todo := recorded.Keys;
    while todo != {}
      invariant forall p :: p in todo ==> p in recorded
      invariant forall p ::
        p in stack <==> p in stack0 || (p in recorded && p !in todo && TokenOf(rows, p) == Some(recorded[p]))
    {
      EmptyOrNot(todo);
      var p :| p in todo;
      todo := todo - {p};
      if TokenOf(rows, p) == Some(recorded[p]) { stack := stack + [p]; }
    }
  }

  /** With an empty stack the walk is done: exactly the members are recorded with their current tokens. */
  lemma WalkIsDone(rows: seq<Row>, prot: set<Pid>, starts: set<Pid>, before: map<Pid, Token>, w: Walk)
    requires Sound(rows, prot, starts, before, w) && Complete(rows, prot, w, {}) && starts <= w.seen && w.stack == []
    ensures ScanResult(rows, prot, starts, before, w.recorded)
  {
    assert forall r :: r in rows && r.ppid in w.seen && r.pid !in prot ==> ChildRow(prot, r.ppid, r);
    forall r | IsMember(rows, prot, starts, r) ensures r.pid in w.recorded && w.recorded[r.pid] == r.token {
      if !r.marked {
        var path :| IsPath(rows, prot, starts, path) && path[|path| - 1] == r.ppid;
        ClosedHoldsReachable(rows, prot, starts, w.seen, path);
        assert ChildRow(prot, r.ppid, r);
      }
    }
  }

  /** Taking a process off the stack opens it. */
  lemma PopOpens(
    rows: seq<Row>, prot: set<Pid>, starts: set<Pid>, before: map<Pid, Token>, w: Walk, rest: seq<Pid>, p: Pid)
    requires Sound(rows, prot, starts, before, w) && Complete(rows, prot, w, {}) && w.stack == rest + [p]
    ensures Sound(rows, prot, starts, before, w.(stack := rest)) && Complete(rows, prot, w.(stack := rest), {p})
    ensures p in w.seen
    ensures Work(rows, starts, w.(stack := rest)) < Work(rows, starts, w)
  {
    assert p in w.stack;
    forall q | q in rest ensures q in w.seen { assert q in w.stack; }
  }

  lemma StartSound(rows: seq<Row>, prot: set<Pid>, starts: set<Pid>, before: map<Pid, Token>, stack: seq<Pid>)
    requires forall p :: p in stack ==> p in starts
    ensures Sound(rows, prot, starts, before, Walk(before, (set p | p in stack), stack))
  {
    forall p | p in stack ensures Reachable(rows, prot, starts, p) { StartIsReachable(rows, prot, starts, p); }
  }

  method WalkTree(rows: seq<Row>, prot: set<Pid>, ghost starts: set<Pid>, stack: seq<Pid>, before: map<Pid, Token>)
    returns (after: map<Pid, Token>)
    requires DistinctPids(rows)
    requires
      forall p :: p in starts <==> p in stack || exists r :: r in rows && r.marked && r.pid !in prot && r.pid == p
    ensures ScanResult(rows, prot, starts, before, after)
  {
    StartSound(rows, prot, starts, before, stack);
    var w := AdmitMarked(rows, prot, starts, Walk(before, (set p | p in stack), stack));
    forall p | p in starts ensures p in w.seen {
      if p !in stack { var r :| r in rows && r.marked && r.pid !in prot && r.pid == p; }
    }
    while w.stack != []
      invariant Sound(rows, prot, starts, before, w) && Complete(rows, prot, w, {}) && starts <= w.seen
      decreases Work(rows, starts, w)
    {
      var p, rest := w.stack[|w.stack| - 1], w.stack[..|w.stack| - 1];
      PopOpens(rows, prot, starts, before, w, rest, p);
      w := VisitChildren(rows, prot, starts, before, p, w.(stack := rest));
    }
    WalkIsDone(rows, prot, starts, before, w);
    after := w.recorded;
  }

  // ---------------------------------------------------------------- the tracker

  /** What a tracker remembers between scans. */
  datatype Memory = Memory(recorded: map<Pid, Token>, rootToken: Token)

  /** The leader's token is learned by the first scan that sees it readable, and kept from then on. */
  function Learned(rows: seq<Row>, root: Option<Pid>, token: Token): Token
  {
    if token.None? && root.Some? then TokenOf(rows, root.value).GetOr(None) else token
  }

  /** One scan: an unreadable table changes nothing. */
  ghost predicate ScanStep(root: Option<Pid>, prot: set<Pid>, rows: Option<seq<Row>>, m: Memory, m': Memory)
  {
    if rows.None? then m' == m
    else
      && m'.rootToken == Learned(rows.value, root, m.rootToken)
      && ScanResult(rows.value, prot, Starts(rows.value, root, m'.rootToken, m.recorded, prot), m.recorded, m'.recorded)
  }

  // ---------------------------------------------------------------- the tree, in rows and links

  /** A row with this pid and token. */
  predicate HasRow(rows: seq<Row>, p: Pid, t: Token) { exists r :: r in rows && r.pid == p && r.token == t }

  /** An unprotected row whose parent is `a` and whose pid is `b`. */
  predicate Linked(rows: seq<Row>, prot: set<Pid>, a: Pid, b: Pid)
  {
    exists r :: r in rows && r.ppid == a && r.pid == b && b !in prot
  }

  /** Every process of the chain after the first is an unprotected child of the one before it. */
  ghost predicate Chain(rows: seq<Row>, prot: set<Pid>, chain: seq<Pid>)
  {
    chain != [] && forall i :: 1 <= i < |chain| ==> Linked(rows, prot, chain[i - 1], chain[i])
  }

  /**
   * Where a tree may begin: the leader, if its row carries the token learned for it; a record, if its row carries the
   * recorded token; an unprotected marked process.
   */
  predicate Origin(
    rows: seq<Row>, prot: set<Pid>, root: Option<Pid>, rootToken: Token, recorded: map<Pid, Token>, p: Pid)
  {
    || (root == Some(p) && rootToken.Some? && HasRow(rows, p, rootToken))
    || (p in recorded && HasRow(rows, p, recorded[p]))
    || (p !in prot && exists r :: r in rows && r.pid == p && r.marked)
  }

  /** Row `r` is in the tree: marked and unprotected, or at the end of a chain of at least one link from an origin. */
  ghost predicate InTree(
    rows: seq<Row>, prot: set<Pid>, root: Option<Pid>, rootToken: Token, recorded: map<Pid, Token>, r: Row)
  {
    && r in rows && r.pid !in prot
    && (r.marked
        || exists chain ::
             && |chain| >= 2 && Chain(rows, prot, chain) && chain[|chain| - 1] == r.pid
             && Origin(rows, prot, root, rootToken, recorded, chain[0]))
  }

  /** After a scan the records hold every row of the tree under its current token; all others are as they were. */
  ghost predicate FindsTree(
    rows: seq<Row>, prot: set<Pid>, root: Option<Pid>, rootToken: Token, before: map<Pid, Token>,
    after: map<Pid, Token>)
  {
    && (forall r :: InTree(rows, prot, root, rootToken, before, r) ==> r.pid in after && after[r.pid] == r.token)
    && (forall p :: p in before ==> p in after)
    && (forall p :: p in after && !(p in before && after[p] == before[p]) ==>
          exists r :: InTree(rows, prot, root, rootToken, before, r) && r.pid == p && after[p] == r.token)
  }

  lemma TokenIsOfRow(rows: seq<Row>, p: Pid, t: Token)
    requires DistinctPids(rows)
    ensures TokenOf(rows, p) == Some(t) <==> HasRow(rows, p, t)
  {
    if TokenOf(rows, p) == Some(t) {
      var i :| 0 <= i < |rows| && rows[i].pid == p && rows[i].token == t;
      assert rows[i] in rows;
    }
  }

  lemma StartIsOrigin(
    rows: seq<Row>, prot: set<Pid>, root: Option<Pid>, rootToken: Token, recorded: map<Pid, Token>, p: Pid)
    requires DistinctPids(rows)
    ensures p in Starts(rows, root, rootToken, recorded, prot) <==> Origin(rows, prot, root, rootToken, recorded, p)
  {
    if p in recorded { TokenIsOfRow(rows, p, recorded[p]); }
    if root == Some(p) { TokenIsOfRow(rows, p, rootToken); }
  }

  lemma ChildIsLinked(rows: seq<Row>, prot: set<Pid>, a: Pid, b: Pid)
    ensures ChildOf(rows, prot, a, b) <==> Linked(rows, prot, a, b)
  {
    if ChildOf(rows, prot, a, b) {
      var i :| 0 <= i < |rows| && rows[i].pid == b && rows[i].ppid == a && b !in prot;
      assert rows[i] in rows;
    }
  }

  lemma PathIsChain(
    rows: seq<Row>, prot: set<Pid>, root: Option<Pid>, rootToken: Token, recorded: map<Pid, Token>, path: seq<Pid>)
    requires DistinctPids(rows)
    ensures IsPath(rows, prot, Starts(rows, root, rootToken, recorded, prot), path) <==>
      Chain(rows, prot, path) && Origin(rows, prot, root, rootToken, recorded, path[0])
  {
    if path != [] { StartIsOrigin(rows, prot, root, rootToken, recorded, path[0]); }
    forall i | 1 <= i < |path|
      ensures ChildOf(rows, prot, path[i - 1], path[i]) <==> Linked(rows, prot, path[i - 1], path[i])
    {
      ChildIsLinked(rows, prot, path[i - 1], path[i]);
    }
  }

  /** The members of a scan are the rows of the tree. */
  lemma MemberIsInTree(
    rows: seq<Row>, prot: set<Pid>, root: Option<Pid>, rootToken: Token, recorded: map<Pid, Token>, r: Row)
    requires DistinctPids(rows)
    ensures IsMember(rows, prot, Starts(rows, root, rootToken, recorded, prot), r) <==>
      InTree(rows, prot, root, rootToken, recorded, r)
  {
    var starts := Starts(rows, root, rootToken, recorded, prot);
    if IsMember(rows, prot, starts, r) && !r.marked {
      var path :| IsPath(rows, prot, starts, path) && path[|path| - 1] == r.ppid;
      PathIsChain(rows, prot, root, rootToken, recorded, path);
      LongerChain(rows, prot, path, r);
      assert (path + [r.pid])[|path + [r.pid]| - 1] == r.pid && (path + [r.pid])[0] == path[0];
    }
    if InTree(rows, prot, root, rootToken, recorded, r) && !r.marked {
      var chain :| |chain| >= 2 && Chain(rows, prot, chain) && chain[|chain| - 1] == r.pid
        && Origin(rows, prot, root, rootToken, recorded, chain[0]);
      var path := chain[..|chain| - 1];
      ShorterChain(rows, prot, chain, r);
      PathIsChain(rows, prot, root, rootToken, recorded, path);
      assert Reachable(rows, prot, starts, r.ppid);
    }
  }

  lemma LongerChain(rows: seq<Row>, prot: set<Pid>, chain: seq<Pid>, r: Row)
    requires Chain(rows, prot, chain) && r in rows && r.pid !in prot && chain[|chain| - 1] == r.ppid
    ensures Chain(rows, prot, chain + [r.pid])
  {
    var longer := chain + [r.pid];
    assert Linked(rows, prot, r.ppid, r.pid);
    forall i | 1 <= i < |longer| ensures Linked(rows, prot, longer[i - 1], longer[i]) {
      if i < |chain| { assert longer[i - 1] == chain[i - 1] && longer[i] == chain[i]; }
    }
  }

  lemma ShorterChain(rows: seq<Row>, prot: set<Pid>, chain: seq<Pid>, r: Row)
    requires DistinctPids(rows) && |chain| >= 2 && Chain(rows, prot, chain) && r in rows && chain[|chain| - 1] == r.pid
    ensures Chain(rows, prot, chain[..|chain| - 1]) && chain[..|chain| - 1][|chain| - 2] == r.ppid
  {
    var shorter := chain[..|chain| - 1];
    assert Linked(rows, prot, chain[|chain| - 2], chain[|chain| - 1]);
    forall i | 1 <= i < |shorter| ensures Linked(rows, prot, shorter[i - 1], shorter[i]) {
      assert Linked(rows, prot, chain[i - 1], chain[i]);
    }
  }

  /** A scan finds the tree. */
  lemma ScanFindsTree(
    rows: seq<Row>, prot: set<Pid>, root: Option<Pid>, rootToken: Token, before: map<Pid, Token>,
    after: map<Pid, Token>)
    requires DistinctPids(rows)
    requires ScanResult(rows, prot, Starts(rows, root, rootToken, before, prot), before, after)
    ensures FindsTree(rows, prot, root, rootToken, before, after)
  {
    forall r
      ensures IsMember(rows, prot, Starts(rows, root, rootToken, before, prot), r) <==>
        InTree(rows, prot, root, rootToken, before, r)
    {
      MemberIsInTree(rows, prot, root, rootToken, before, r);
    }
  }

  /** No row of the table is in the tree. */
  ghost predicate TreeGone(
    rows: seq<Row>, prot: set<Pid>, root: Option<Pid>, rootToken: Token, recorded: map<Pid, Token>)
  {
    forall r :: !InTree(rows, prot, root, rootToken, recorded, r)
  }

  /** When the last scan found its tree and nothing recorded runs, no row of the tree is left. */
  lemma NothingLeft(
    rows: seq<Row>, prot: set<Pid>, root: Option<Pid>, rootToken: Token, before: map<Pid, Token>,
    after: map<Pid, Token>)
    requires FindsTree(rows, prot, root, rootToken, before, after)
    requires forall p :: p in after ==> !IsLive(rows, after, prot, p)
    ensures TreeGone(rows, prot, root, rootToken, before)
  {
    forall r | InTree(rows, prot, root, rootToken, before, r) ensures false {
      assert IsLive(rows, after, prot, r.pid);
    }
  }

  /** `p` counts as running: its row carries the recorded token, or the row is there and cannot be read. */
  predicate IsLive(rows: seq<Row>, recorded: map<Pid, Token>, prot: set<Pid>, p: Pid)
  {
    && p in recorded && p !in prot
    && exists i :: 0 <= i < |rows| && rows[i].pid == p && (rows[i].token == recorded[p] || rows[i].unknown)
  }

  predicate IsUnknown(rows: seq<Row>, p: Pid) { exists i :: 0 <= i < |rows| && rows[i].pid == p && rows[i].unknown }

  /** `p` is to be signalled: running, verifiable, above pid 1, and not signalled yet under this token. */
  predicate IsDue(rows: seq<Row>, recorded: map<Pid, Token>, prot: set<Pid>, sent: set<(Pid, Token)>, p: Pid)
  {
    IsLive(rows, recorded, prot, p) && p > 1 && !IsUnknown(rows, p) && (p, recorded[p]) !in sent
  }

  /** The same in rows: above pid 1, unprotected, a row with the recorded token, none unreadable, not signalled yet. */
  predicate MustSignal(rows: seq<Row>, recorded: map<Pid, Token>, prot: set<Pid>, sent: set<(Pid, Token)>, p: Pid)
  {
    && p > 1 && p !in prot && p in recorded && HasRow(rows, p, recorded[p])
    && (forall r :: r in rows && r.pid == p ==> !r.unknown) && (p, recorded[p]) !in sent
  }

  lemma DueMeaning(rows: seq<Row>, recorded: map<Pid, Token>, prot: set<Pid>, sent: set<(Pid, Token)>, p: Pid)
    ensures IsDue(rows, recorded, prot, sent, p) <==> MustSignal(rows, recorded, prot, sent, p)
  {
    if IsDue(rows, recorded, prot, sent, p) {
      var i :| 0 <= i < |rows| && rows[i].pid == p && (rows[i].token == recorded[p] || rows[i].unknown);
      assert rows[i] in rows;
    }
    if IsUnknown(rows, p) {
      var i :| 0 <= i < |rows| && rows[i].pid == p && rows[i].unknown;
      assert rows[i] in rows;
    }
  }

  datatype Signal = SIGTERM | SIGKILL

  /** One signal sent during sweep number `at`. */
  datatype Sent = Sent(signal: Signal, pid: Pid, token: Token, at: nat)

  /** What sweep number `k` of a reap finds: the table, and the clock after it. */
  datatype Tick = Tick(rows: Option<seq<Row>>, now: int)

  type World = nat -> Tick

  /**
   * Tables have distinct pids; the clock never goes back and moves while the reap sleeps. It sleeps after every sweep
   * but the last of the first phase, so of two steps in a row at least one moves the clock.
   */
  ghost predicate Physical(world: World)
  {
    && (forall k: nat :: world(k).rows.Some? ==> DistinctPids(world(k).rows.value))
    && (forall k: nat :: world(k).now <= world(k + 1).now)
    && (forall k: nat :: world(k).now < world(k + 2).now)
  }

  lemma {:induction false} ClockNeverFalls(world: World, i: nat, j: nat)
    requires Physical(world) && i <= j
    ensures world(i).now <= world(j).now
  {
    if i < j {
      ClockNeverFalls(world, i, j - 1);
      assert world(j - 1).now <= world(j - 1 + 1).now;
    }
  }

  /** The memories before, between and after the sweeps `0..|history| - 1`. */
  ghost predicate History(world: World, root: Option<Pid>, prot: set<Pid>, history: seq<Memory>)
  {
    && history != []
    && forall k :: 0 <= k < |history| - 1 ==> ScanStep(root, prot, world(k).rows, history[k], history[k + 1])
  }

  /**
   * A signal went to a recorded, unprotected process above pid 1 whose row in that very sweep carried the recorded
   * token.
   */
  ghost predicate Justified(world: World, prot: set<Pid>, history: seq<Memory>, e: Sent)
  {
    && e.at + 1 < |history| && world(e.at).rows.Some?
    && e.pid !in prot && e.pid > 1
    && e.pid in history[e.at + 1].recorded && history[e.at + 1].recorded[e.pid] == e.token
    && exists r :: r in world(e.at).rows.value && r.pid == e.pid && r.token == e.token && !r.unknown
  }

  ghost predicate OncePerSignal(log: seq<Sent>)
  {
    forall i, j :: 0 <= i < j < |log| && log[i].signal == log[j].signal ==>
      log[i].pid != log[j].pid || log[i].token != log[j].token
  }

  ghost predicate GoodLog(world: World, prot: set<Pid>, history: seq<Memory>, log: seq<Sent>)
  {
    OncePerSignal(log) && forall e :: e in log ==> Justified(world, prot, history, e)
  }

  /** The memories and the signals after `k` sweeps; `now` is the memory that resulted. */
  ghost predicate Trace(
    world: World, root: Option<Pid>, prot: set<Pid>, k: nat, now: Memory, history: seq<Memory>, log: seq<Sent>)
  {
    |history| == k + 1 && history[k] == now && History(world, root, prot, history) && GoodLog(world, prot, history, log)
  }

  /** A scan extends the trace. */
  lemma TraceExtends(
    world: World, root: Option<Pid>, prot: set<Pid>, k: nat, now: Memory, next: Memory, history: seq<Memory>,
    log: seq<Sent>)
    requires Trace(world, root, prot, k, now, history, log) && ScanStep(root, prot, world(k).rows, now, next)
    ensures Trace(world, root, prot, k + 1, next, history + [next], log)
  {
    var longer := history + [next];
    forall i | 0 <= i < |longer| - 1 ensures ScanStep(root, prot, world(i).rows, longer[i], longer[i + 1]) {
      if i < k { assert longer[i] == history[i] && longer[i + 1] == history[i + 1]; }
    }
    forall e | e in log ensures Justified(world, prot, longer, e) {
      assert Justified(world, prot, history, e) && longer[e.at + 1] == history[e.at + 1];
    }
  }

  ghost predicate IsSentSet(log: seq<Sent>, signal: Signal, sent: set<(Pid, Token)>)
  {
    forall p, t :: (p, t) in sent <==> exists e :: e in log && e.signal == signal && e.pid == p && e.token == t
  }

  /** `log'` continues `log` with entries of one signal, none of them from before sweep `k0`. */
  ghost predicate Continues(log: seq<Sent>, log': seq<Sent>, signal: Signal, k0: nat)
  {
    log <= log' && forall e :: e in log' ==> e in log || (e.signal == signal && k0 <= e.at)
  }

  /** Every KILL was sent in a sweep that ended at the deadline or after it. */
  ghost predicate KillsAfter(world: World, log: seq<Sent>, deadline: int)
  {
    forall e :: e in log && e.signal == SIGKILL ==> world(e.at).now >= deadline
  }

  /** The sweeps from `k0` to `k` all ended before the deadline. */
  ghost predicate InTime(world: World, k0: nat, k: int, deadline: int)
  {
    forall i: nat :: k0 <= i < k ==> world(i).now < deadline
  }

  /** Sweep `i` could not read the table, or found a member running. */
  ghost predicate StillRunning(world: World, prot: set<Pid>, history: seq<Memory>, i: nat)
    requires i + 1 < |history|
  {
    world(i).rows.None? || SomeLive(world(i).rows.value, history[i + 1].recorded, prot)
  }

  ghost predicate SomeLive(rows: seq<Row>, recorded: map<Pid, Token>, prot: set<Pid>)
  {
    exists p :: p in recorded && IsLive(rows, recorded, prot, p)
  }

  /**
   * The TERM sweeps: all but the last were in time and found something running, and the last was the first to be late
   * or to find all gone.
   */
  ghost predicate TermSweeps(world: World, prot: set<Pid>, history: seq<Memory>, terms: nat, graceEnd: int)
    requires 0 < terms < |history|
  {
    && AllRunning(world, prot, history, 0, terms - 1) && InTime(world, 0, terms - 1, graceEnd)
    && (StillRunning(world, prot, history, terms - 1) ==> world(terms - 1).now >= graceEnd)
  }

  /**
   * How many sweeps end past `end`: at most the last two, and two exactly when the last TERM sweep did and had not
   * found all gone.
   */
  ghost predicate LateSweeps(world: World, prot: set<Pid>, history: seq<Memory>, terms: nat, sweeps: nat, end: int)
    requires 0 < terms <= sweeps < |history|
  {
    && InTime(world, 0, sweeps - 2, end)
    && ((sweeps >= 2 && world(sweeps - 2).now >= end) <==>
          (world(terms - 1).now >= end && StillRunning(world, prot, history, terms - 1)))
  }

  ghost predicate AllRunning(world: World, prot: set<Pid>, history: seq<Memory>, k0: nat, k: int)
    requires k < |history|
  {
    forall i: nat :: k0 <= i < k && i + 1 < |history| ==> StillRunning(world, prot, history, i)
  }

  /** What the sweeps `k0..k` of a phase that is not over have done. */
  ghost predicate SoFar(
    signal: Signal, world: World, prot: set<Pid>, k0: nat, k: nat, deadline: int, log: seq<Sent>, log': seq<Sent>,
    history: seq<Memory>)
  {
    && |history| == k + 1 && Continues(log, log', signal, k0) && InTime(world, k0, k, deadline)
    && AllRunning(world, prot, history, k0, k)
  }

  lemma OneMoreSweep(
    signal: Signal, world: World, prot: set<Pid>, k0: nat, k: nat, deadline: int, log: seq<Sent>, log': seq<Sent>,
    history: seq<Memory>)
    requires Physical(world) && k0 <= k && |history| == k + 2 && Continues(log, log', signal, k0)
    requires InTime(world, k0, k, deadline) && AllRunning(world, prot, history, k0, k)
    requires world(k).now < deadline && StillRunning(world, prot, history, k)
    ensures SoFar(signal, world, prot, k0, k + 1, deadline, log, log', history)
    ensures Max(0, deadline - world(k + 1).now) + Max(0, deadline - world(k + 2).now)
      < Max(0, deadline - world(k).now) + Max(0, deadline - world(k + 1).now)
  {
    assert world(k).now <= world(k + 1).now && world(k).now < world(k + 2).now;
  }

  /**
   * The two phases of a reap: `terms` TERM sweeps, then KILL sweeps exactly if the last of those had not found all
   * gone; each signal in its phase, a KILL only after the grace, and the count of sweeps past both deadlines.
   */
  ghost predicate TwoPhases(
    world: World, prot: set<Pid>, history: seq<Memory>, log: seq<Sent>, terms: nat, sweeps: nat, graceEnd: int,
    end: int)
  {
    && 0 < terms <= sweeps < |history|
    && TermSweeps(world, prot, history, terms, graceEnd)
    && (terms < sweeps <==> StillRunning(world, prot, history, terms - 1))
    && InPhases(log, terms) && KillsAfter(world, log, graceEnd)
    && LateSweeps(world, prot, history, terms, sweeps, end)
  }

  /** The TERM sweeps are over and something is still running. */
  ghost predicate TermOver(
    world: World, prot: set<Pid>, history: seq<Memory>, termed: seq<Sent>, terms: nat, graceEnd: int)
  {
    && 0 < terms < |history| && TermSweeps(world, prot, history, terms, graceEnd)
    && StillRunning(world, prot, history, terms - 1)
    && InPhases(termed, terms) && forall e :: e in termed ==> e.signal == SIGTERM
  }

  class DescendantTracker {
    const rootPid: Option<Pid>
    const protectedPids: set<Pid>
    var recorded: map<Pid, Token>
    var rootToken: Token

    ghost function Now(): Memory reads this { Memory(recorded, rootToken) }

    /** Protected pids of a snapshot are dropped. */
    constructor FromSnapshot(root: Option<Pid>, snapshot: map<Pid, Token>, prot: set<Pid>)
      ensures rootPid == root && protectedPids == prot && rootToken == None
      ensures recorded == map p | p in snapshot && p !in prot :: snapshot[p]
    {
      rootPid, protectedPids, rootToken := root, prot, None;
      recorded := map p | p in snapshot && p !in prot :: snapshot[p];
    }

    method Scan(rows: Option<seq<Row>>)
      requires rows.Some? ==> DistinctPids(rows.value)
      modifies this
      ensures ScanStep(rootPid, protectedPids, rows, old(Now()), Now())
      ensures rows.None? ==> Now() == old(Now())
      ensures rows.Some? ==>
        FindsTree(rows.value, protectedPids, rootPid, rootToken, old(recorded), recorded)
      ensures old(rootToken).Some? ==> rootToken == old(rootToken)
      ensures rows.Some? && old(rootToken).None? ==> forall t: string ::
        rootToken == Some(t) <==> rootPid.Some? && HasRow(rows.value, rootPid.value, Some(t))
      ensures recorded.Keys >= old(recorded.Keys)
      ensures old(recorded.Keys) !! protectedPids ==> recorded.Keys !! protectedPids
    {
      if rows.None? { return; }
      if rootToken.None? && rootPid.Some? { rootToken := TokenOf(rows.value, rootPid.value).GetOr(None); }
      ghost var starts := Starts(rows.value, rootPid, rootToken, recorded, protectedPids);
      var stack :=
        if rootPid.Some? && rootToken.Some? && TokenOf(rows.value, rootPid.value) == Some(rootToken)
        then [rootPid.value]
        else [];
      stack := PushMatching(rows.value, recorded, stack);
      ghost var before := recorded;
      recorded := WalkTree(rows.value, protectedPids, starts, stack, recorded);
      ScanFindsTree(rows.value, protectedPids, rootPid, rootToken, before, recorded);
      forall t: string | rootPid.Some? {
        TokenIsOfRow(rows.value, rootPid.value, Some(t));
      }
      assert forall p :: p in before ==> p in recorded;
      assert forall p :: p in recorded && p !in before ==> p !in protectedPids;
    }

    /** The members that count as running. */
    function Live(rows: seq<Row>): (live: set<Pid>)
      reads this
      ensures forall p :: p in live <==> IsLive(rows, recorded, protectedPids, p)
      ensures forall p ::
        p in live <==>
          && p in recorded && p !in protectedPids
          && exists r :: r in rows && r.pid == p && (r.token == recorded[p] || r.unknown)
    {
      set p | p in recorded && IsLive(rows, recorded, protectedPids, p)
    }

    /** Signals exactly the members that are due, each once, and remembers them in `sent`. */
    method SignalLive(rows: seq<Row>, sent: set<(Pid, Token)>) returns (pids: seq<Pid>, sent': set<(Pid, Token)>)
      ensures forall p :: p in pids <==> IsDue(rows, recorded, protectedPids, sent, p)
      ensures forall p :: p in pids <==> MustSignal(rows, recorded, protectedPids, sent, p)
      ensures forall i, j :: 0 <= i < j < |pids| ==> pids[i] != pids[j]
      ensures sent' == sent + (set p | p in pids && p in recorded :: (p, recorded[p]))
    {
      forall p ensures IsDue(rows, recorded, protectedPids, sent, p) <==>
          MustSignal(rows, recorded, protectedPids, sent, p)
      {
        DueMeaning(rows, recorded, protectedPids, sent, p);
      }
      var todo := Live(rows);
      ghost var live := todo;
      pids, sent' := [], sent;
      while todo != {}
        invariant todo <= live
        invariant forall p :: p in pids <==> p in live - todo && IsDue(rows, recorded, protectedPids, sent, p)
        invariant forall i, j :: 0 <= i < j < |pids| ==> pids[i] != pids[j]
        invariant sent' == sent + (set p | p in pids && p in recorded :: (p, recorded[p]))
      {
        var p :| p in todo;
        todo := todo - {p};
        if p > 1 && !IsUnknown(rows, p) && (p, recorded[p]) !in sent' {
          sent', pids := sent' + {(p, recorded[p])}, pids + [p];
        }
      }
    }

    /** Scan, then signal what is due: the log stays justified and repeats nothing. */
    method Sweep(
      signal: Signal, world: World, k: nat, sent: set<(Pid, Token)>, log: seq<Sent>, ghost history: seq<Memory>)
      returns (live: Option<set<Pid>>, sent': set<(Pid, Token)>, log': seq<Sent>, ghost history': seq<Memory>)
      requires Physical(world) && Trace(world, rootPid, protectedPids, k, Now(), history, log)
      requires IsSentSet(log, signal, sent)
      modifies this
      ensures history < history' && Trace(world, rootPid, protectedPids, k + 1, Now(), history', log')
      ensures IsSentSet(log', signal, sent') && Continues(log, log', signal, k)
      ensures live == if world(k).rows.Some? then Some(Live(world(k).rows.value)) else None
      ensures world(k).rows.Some? ==> Served(world(k).rows.value, live.value, sent')
      ensures StillRunning(world, protectedPids, history', k) <==> live != Some({})
    {
      var rows := world(k).rows;
      ghost var before := Now();
      Scan(rows);
      TraceExtends(world, rootPid, protectedPids, k, before, Now(), history, log);
      history' := history + [Now()];
      if rows.None? { return None, sent, log, history'; }
      var pids;
      pids, sent' := SignalLive(rows.value, sent);
      LogGrows(world, protectedPids, history', log, signal, rows.value, recorded, sent, pids, k);
      log' := log + Sending(signal, recorded, pids, k);
      live := Some(Live(rows.value));
      EmptyOrNot(live.value);
    }

    /** Every running member that can be verified has been signalled under its token. */
    predicate Served(rows: seq<Row>, live: set<Pid>, sent: set<(Pid, Token)>)
      reads this
    {
      forall p :: p in live && p > 1 && !IsUnknown(rows, p) && p in recorded ==> (p, recorded[p]) in sent
    }

    /** What a phase of sweeps from `k0` to `k` leaves. */
    ghost predicate PhaseEnds(
      signal: Signal, world: World, k0: nat, k: nat, deadline: int, log: seq<Sent>, log': seq<Sent>,
      live: Option<set<Pid>>, history: seq<Memory>)
      reads this
      requires k > 0 && |history| > k
    {
      && Continues(log, log', signal, k0)
      && live == (if world(k - 1).rows.Some? then Some(Live(world(k - 1).rows.value)) else None)
      && (live == Some({}) || world(k - 1).now >= deadline)
      && InTime(world, k0, k - 1, deadline) && AllRunning(world, protectedPids, history, k0, k - 1)
      && (StillRunning(world, protectedPids, history, k - 1) <==> live != Some({}))
      && (live.Some? ==> forall p :: p in live.value ==> Struck(signal, world(k - 1).rows.value, log', p))
    }

    /** A running member that can be verified has had its signal. */
    ghost predicate Struck(signal: Signal, rows: seq<Row>, log: seq<Sent>, p: Pid)
      reads this
    {
      p > 1 && !IsUnknown(rows, p) ==>
        exists e :: e in log && e.signal == signal && e.pid == p && p in recorded && e.token == recorded[p]
    }

    lemma ServedIsStruck(
      signal: Signal, world: World, k: nat, live: Option<set<Pid>>, sent: set<(Pid, Token)>, log: seq<Sent>)
      requires k > 0 && IsSentSet(log, signal, sent)
      requires live == (if world(k - 1).rows.Some? then Some(Live(world(k - 1).rows.value)) else None)
      requires live.Some? ==> Served(world(k - 1).rows.value, live.value, sent)
      ensures live.Some? ==> forall p :: p in live.value ==> Struck(signal, world(k - 1).rows.value, log, p)
    {}

    /** Sweep with one signal until nothing runs or the deadline has passed. */
    method RunPhase(signal: Signal, world: World, k0: nat, deadline: int, log: seq<Sent>, ghost history: seq<Memory>)
      returns (live: Option<set<Pid>>, k: nat, log': seq<Sent>, ghost history': seq<Memory>)
      requires Physical(world) && Trace(world, rootPid, protectedPids, k0, Now(), history, log)
      requires forall e :: e in log ==> e.signal != signal
      modifies this
      ensures k > k0 && history < history' && Trace(world, rootPid, protectedPids, k, Now(), history', log')
      ensures PhaseEnds(signal, world, k0, k, deadline, log, log', live, history')
    {
      var sent: set<(Pid, Token)> := {};
      k, log', history' := k0, log, history;
      while true
        invariant k0 <= k && history <= history' && Trace(world, rootPid, protectedPids, k, Now(), history', log')
        invariant IsSentSet(log', signal, sent)
        invariant SoFar(signal, world, protectedPids, k0, k, deadline, log, log', history')
        decreases Max(0, deadline - world(k).now) + Max(0, deadline - world(k + 1).now)
      {
        ghost var earlier, before := log', history';
        live, sent, log', history' := Sweep(signal, world, k, sent, log', history');
        ContinuesFurther(log, earlier, log', signal, k0, k);
        RunningFurther(world, protectedPids, before, history', k0, k);
        k := k + 1;
        if live == Some({}) || world(k - 1).now >= deadline {
          ServedIsStruck(signal, world, k, live, sent, log');
          break;
        }
        OneMoreSweep(signal, world, protectedPids, k0, k - 1, deadline, log, log', history');
      }
    }

    /**
     * TERM until nothing runs or the grace is over, then KILL for `killWait` more. Sweep `i` sees `world(i)`; the first
     * `terms` sweeps send TERM, the others KILL. No process gets the same signal twice, every signal is justified, a
     * KILL comes only after the grace, and the reap is complete exactly when its last table was readable and nothing
     * ran. At most the last two sweeps end past both deadlines, and two do exactly when the last TERM sweep did and had
     * not found everything gone.
     */
    method Reap(world: World, start: int, grace: nat, killWait: nat)
      returns (signalled: set<Pid>, survivors: set<Pid>, complete: bool,
        last: Option<set<Pid>>, log: seq<Sent>, terms: nat, sweeps: nat, ghost history: seq<Memory>)
      requires Physical(world)
      modifies this
      ensures Trace(world, rootPid, protectedPids, sweeps, Now(), history, log) && history[0] == old(Now())
      ensures TwoPhases(world, protectedPids, history, log, terms, sweeps, start + grace, start + grace + killWait)
      ensures Concludes(world, sweeps, start + grace + killWait, log, last)
      ensures signalled == PidsOf(log) && survivors == last.GetOr({}) && complete == (last == Some({}))
      ensures complete ==> LeavesNoTree(world, sweeps, history)
    {
      last, log, terms, sweeps, history := RunBothPhases(world, start + grace, killWait);
      signalled, survivors, complete := PidsOf(log), last.GetOr({}), last == Some({});
      GoneFromTable(world, sweeps, last, history, log);
    }

    method RunBothPhases(world: World, graceEnd: int, killWait: nat)
      returns (last: Option<set<Pid>>, log: seq<Sent>, terms: nat, sweeps: nat, ghost history: seq<Memory>)
      requires Physical(world)
      modifies this
      ensures Trace(world, rootPid, protectedPids, sweeps, Now(), history, log) && history[0] == old(Now())
      ensures TwoPhases(world, protectedPids, history, log, terms, sweeps, graceEnd, graceEnd + killWait)
      ensures Concludes(world, sweeps, graceEnd + killWait, log, last)
    {
      last, terms, log, history := TermFirst(world, graceEnd, killWait);
      sweeps := terms;
      if last != Some({}) {
        last, sweeps, log, history := KillRest(world, terms, graceEnd, killWait, log, history);
      }
    }

    /** The table of the last sweep was readable, and none of its rows is in the tree. */
    ghost predicate LeavesNoTree(world: World, sweeps: nat, history: seq<Memory>)
      reads this
    {
      && 0 < sweeps <= |history| && world(sweeps - 1).rows.Some?
      && TreeGone(world(sweeps - 1).rows.value, protectedPids, rootPid, rootToken, history[sweeps - 1].recorded)
    }

    /** When nothing runs after the last scan, that is so. */
    lemma GoneFromTable(world: World, sweeps: nat, last: Option<set<Pid>>, history: seq<Memory>, log: seq<Sent>)
      requires Physical(world) && sweeps > 0 && Trace(world, rootPid, protectedPids, sweeps, Now(), history, log)
      requires last == if world(sweeps - 1).rows.Some? then Some(Live(world(sweeps - 1).rows.value)) else None
      ensures last == Some({}) ==> LeavesNoTree(world, sweeps, history)
    {
      if last == Some({}) {
        var rows, before := world(sweeps - 1).rows.value, history[sweeps - 1].recorded;
        assert ScanStep(rootPid, protectedPids, Some(rows), history[sweeps - 1], history[sweeps]);
        ScanFindsTree(rows, protectedPids, rootPid, rootToken, before, recorded);
        NothingLeft(rows, protectedPids, rootPid, rootToken, before, recorded);
      }
    }

    /**
     * What the last sweep leaves: who still counts as running, nothing if the table could not be read. Unless that is
     * nobody, the wait is over; and every survivor that can be verified has had its KILL.
     */
    ghost predicate Concludes(world: World, sweeps: nat, end: int, log: seq<Sent>, last: Option<set<Pid>>)
      reads this
    {
      && sweeps > 0 && last == (if world(sweeps - 1).rows.Some? then Some(Live(world(sweeps - 1).rows.value)) else None)
      && (last == Some({}) || world(sweeps - 1).now >= end)
      && (last.Some? ==> forall p :: p in last.value ==> Struck(SIGKILL, world(sweeps - 1).rows.value, log, p))
    }

    /** The first phase, from an empty log. */
    method TermFirst(world: World, deadline: int, killWait: nat)
      returns (live: Option<set<Pid>>, k: nat, log: seq<Sent>, ghost history: seq<Memory>)
      requires Physical(world)
      modifies this
      ensures k > 0 && Trace(world, rootPid, protectedPids, k, Now(), history, log) && history[0] == old(Now())
      ensures live == Some({}) ==> TwoPhases(world, protectedPids, history, log, k, k, deadline, deadline + killWait)
      ensures live == Some({}) ==> Concludes(world, k, deadline + killWait, log, live)
      ensures live != Some({}) ==> TermOver(world, protectedPids, history, log, k, deadline)
    {
      FreshTrace(world, rootPid, protectedPids, Now());
      live, k, log, history := RunPhase(SIGTERM, world, 0, deadline, [], [Now()]);
      TermsBefore(world, protectedPids, history, log, k);
      if live == Some({}) { TermWasEnough(world, protectedPids, history, k, deadline, killWait, log); }
    }

    /** The second phase, begun after the grace. */
    method KillRest(
      world: World, first: nat, deadline: int, killWait: nat, termed: seq<Sent>, ghost history: seq<Memory>)
      returns (live: Option<set<Pid>>, k: nat, log: seq<Sent>, ghost history': seq<Memory>)
      requires Physical(world) && Trace(world, rootPid, protectedPids, first, Now(), history, termed)
      requires TermOver(world, protectedPids, history, termed, first, deadline)
      modifies this
      ensures k > first && Trace(world, rootPid, protectedPids, k, Now(), history', log) && history'[0] == history[0]
      ensures Concludes(world, k, deadline + killWait, log, live)
      ensures TwoPhases(world, protectedPids, history', log, first, k, deadline, deadline + killWait)
    {
      live, k, log, history' := RunPhase(SIGKILL, world, first, deadline + killWait, termed, history);
      KillsAreLate(world, first, deadline, termed, log);
      PhasesKept(world, protectedPids, history, history', termed, log, first);
      KillSweeps(world, protectedPids, history', first, k, deadline, killWait);
    }
  }

  lemma KillSweeps(world: World, prot: set<Pid>, history: seq<Memory>, first: nat, k: nat, deadline: int, killWait: nat)
    requires Physical(world) && 0 < first < k < |history| && TermSweeps(world, prot, history, first, deadline)
    requires StillRunning(world, prot, history, first - 1)
    requires InTime(world, first, k - 1, deadline + killWait)
    ensures LateSweeps(world, prot, history, first, k, deadline + killWait)
  {
    ClockNeverFalls(world, first - 1, first);
    if first < k - 1 { assert world(first).now < deadline + killWait && world(k - 2).now < deadline + killWait; }
  }

  /** The first `terms` sweeps sent TERM only, the later ones KILL only. */
  ghost predicate InPhases(log: seq<Sent>, terms: nat)
  {
    forall e :: e in log ==> (e.signal == SIGTERM <==> e.at < terms)
  }

  lemma TermsBefore(world: World, prot: set<Pid>, history: seq<Memory>, log: seq<Sent>, k: nat)
    requires GoodLog(world, prot, history, log) && |history| == k + 1 && forall e :: e in log ==> e.signal == SIGTERM
    ensures InPhases(log, k)
  {
    forall e | e in log ensures e.at < k { assert Justified(world, prot, history, e); }
  }

  lemma PhasesKept(
    world: World, prot: set<Pid>, before: seq<Memory>, after: seq<Memory>, termed: seq<Sent>, log: seq<Sent>,
    terms: nat)
    requires before < after && |before| == terms + 1 && terms > 0 && AllRunning(world, prot, before, 0, terms - 1)
    requires InPhases(termed, terms) && Continues(termed, log, SIGKILL, terms)
    ensures AllRunning(world, prot, after, 0, terms - 1) && InPhases(log, terms)
    ensures StillRunning(world, prot, after, terms - 1) <==> StillRunning(world, prot, before, terms - 1)
  {
    forall i: nat | i < terms - 1 ensures StillRunning(world, prot, after, i) {
      assert StillRunning(world, prot, before, i) && after[i + 1] == before[i + 1];
    }
    assert after[terms] == before[terms];
  }

  /** A world of slow, unreadable tables: both the TERM sweep and the KILL sweep of a reap end past both deadlines. */
  method SlowTablesReadTwice()
    returns (tracker: DescendantTracker, world: World,
      log: seq<Sent>, terms: nat, sweeps: nat, ghost history: seq<Memory>)
    ensures forall k: nat :: world(k) == Tick(None, 15_000 * (k + 1))
    ensures Trace(world, tracker.rootPid, tracker.protectedPids, sweeps, tracker.Now(), history, log)
    ensures TwoPhases(world, tracker.protectedPids, history, log, terms, sweeps, 10_000, 10_000 + 3_000)
    ensures terms == 1 && sweeps == 2 && world(0).now >= 10_000 + 3_000 && world(1).now >= 10_000 + 3_000
  {
    world := k => Tick(None, 15_000 * (k + 1));
    tracker := new DescendantTracker.FromSnapshot(Some(7), map[], {});
    var signalled, survivors, complete, last;
    assert world(0).now >= 13_000;
    signalled, survivors, complete, last, log, terms, sweeps, history := tracker.Reap(world, 0, 10_000, 3_000);
    assert terms == 1 && sweeps == 2;
  }

  function PidsOf(log: seq<Sent>): set<Pid> { set e | e in log :: e.pid }

  lemma TermWasEnough(
    world: World, prot: set<Pid>, history: seq<Memory>, k: nat, deadline: int, killWait: nat, log: seq<Sent>)
    requires 0 < k < |history| && TermSweeps(world, prot, history, k, deadline)
    requires !StillRunning(world, prot, history, k - 1) && forall e :: e in log ==> e.signal == SIGTERM
    requires InPhases(log, k)
    ensures TwoPhases(world, prot, history, log, k, k, deadline, deadline + killWait)
  {
    assert k >= 2 ==> world(k - 2).now < deadline;
  }

  lemma FreshTrace(world: World, root: Option<Pid>, prot: set<Pid>, now: Memory)
    ensures Trace(world, root, prot, 0, now, [now], [])
  {}

  lemma RunningFurther(world: World, prot: set<Pid>, before: seq<Memory>, after: seq<Memory>, k0: nat, k: nat)
    requires before < after && |before| == k + 1 && AllRunning(world, prot, before, k0, k)
    ensures AllRunning(world, prot, after, k0, k)
  {
    forall i: nat | k0 <= i < k ensures StillRunning(world, prot, after, i) {
      assert StillRunning(world, prot, before, i) && after[i + 1] == before[i + 1];
    }
  }

  lemma ContinuesFurther(a: seq<Sent>, b: seq<Sent>, c: seq<Sent>, signal: Signal, k0: nat, k: nat)
    requires Continues(a, b, signal, k0) && Continues(b, c, signal, k) && k0 <= k
    ensures Continues(a, c, signal, k0)
  {}

  /** What the second phase sent came after the sweep that ended the first. */
  lemma KillsAreLate(world: World, first: nat, deadline: int, termed: seq<Sent>, log: seq<Sent>)
    requires Physical(world) && first > 0 && world(first - 1).now >= deadline
    requires forall e :: e in termed ==> e.signal == SIGTERM
    requires forall e :: e in log ==> e in termed || first <= e.at
    ensures KillsAfter(world, log, deadline)
  {
    forall e | e in log && e.signal == SIGKILL
      ensures world(e.at).now >= deadline
    {
      ClockNeverFalls(world, first - 1, e.at);
    }
  }

  /** The log entries for signalling `pids` in sweep `k`. */
  function Sending(signal: Signal, recorded: map<Pid, Token>, pids: seq<Pid>, k: nat): (r: seq<Sent>)
    requires forall j :: 0 <= j < |pids| ==> pids[j] in recorded
  {
    seq(|pids|, j requires 0 <= j < |pids| => Sent(signal, pids[j], recorded[pids[j]], k))
  }

  lemma LogGrows(
    world: World, prot: set<Pid>, history: seq<Memory>, log: seq<Sent>, signal: Signal, rows: seq<Row>,
    recorded: map<Pid, Token>, sent: set<(Pid, Token)>, pids: seq<Pid>, k: nat)
    requires world(k).rows == Some(rows) && |history| == k + 2 && history[k + 1].recorded == recorded
    requires GoodLog(world, prot, history, log) && IsSentSet(log, signal, sent)
    requires forall p :: p in pids <==> IsDue(rows, recorded, prot, sent, p)
    requires forall i, j :: 0 <= i < j < |pids| ==> pids[i] != pids[j]
    ensures forall j :: 0 <= j < |pids| ==> pids[j] in recorded
    ensures var log' := log + Sending(signal, recorded, pids, k);
            && GoodLog(world, prot, history, log')
            && IsSentSet(log', signal, sent + (set p | p in pids && p in recorded :: (p, recorded[p])))
  {
    forall j | 0 <= j < |pids| ensures IsDue(rows, recorded, prot, sent, pids[j]) { assert pids[j] in pids; }
    var more := Sending(signal, recorded, pids, k);
    var log' := log + more;
    forall e | e in more ensures Justified(world, prot, history, e) {
      var i :| 0 <= i < |rows| && rows[i].pid == e.pid && (rows[i].token == recorded[e.pid] || rows[i].unknown);
      assert rows[i] in rows && !rows[i].unknown;
    }
    forall i, j | 0 <= i < j < |log'| && log'[i].signal == log'[j].signal
      ensures log'[i].pid != log'[j].pid || log'[i].token != log'[j].token
    {
      if i < |log| <= j { assert log[i] in log; assert (log'[j].pid, log'[j].token) !in sent; }
    }
    var sent' := sent + (set p | p in pids && p in recorded :: (p, recorded[p]));
    forall p, t ensures (p, t) in sent' <==> exists e :: e in log' && e.signal == signal && e.pid == p && e.token == t {
      if (p, t) in sent {
        var e :| e in log && e.signal == signal && e.pid == p && e.token == t;
        assert e in log';
      } else if (p, t) in sent' {
        var j :| 0 <= j < |pids| && pids[j] == p;
        assert log'[|log| + j] == Sent(signal, p, t, k);
      }
    }
  }

  // ---------------------------------------------------------------- over a whole run of scans

  /** Row `r` of sweep `j` was a member when it was scanned, with the token `token`. */
  ghost predicate WasMember(
    world: World, root: Option<Pid>, prot: set<Pid>, history: seq<Memory>, j: nat, pid: Pid, token: Token)
    requires j + 1 < |history|
  {
    && world(j).rows.Some?
    && exists r :: IsMember(world(j).rows.value, prot,
      Starts(world(j).rows.value, root, history[j + 1].rootToken, history[j].recorded, prot), r)
                   && r.pid == pid && r.token == token
  }

  /** A record is one the tracker started with, or of a process that was a member under that very token. */
  lemma {:induction false} RecordedIsOurs(
    world: World, root: Option<Pid>, prot: set<Pid>, history: seq<Memory>, k: nat, pid: Pid)
    requires History(world, root, prot, history) && k < |history| && pid in history[k].recorded
    ensures (pid in history[0].recorded && history[0].recorded[pid] == history[k].recorded[pid])
      || exists j :: 0 <= j < k && WasMember(world, root, prot, history, j, pid, history[k].recorded[pid])
  {
    if k > 0 {
      assert ScanStep(root, prot, world(k - 1).rows, history[k - 1], history[k]);
      if pid in history[k - 1].recorded && history[k - 1].recorded[pid] == history[k].recorded[pid] {
        RecordedIsOurs(world, root, prot, history, k - 1, pid);
      } else {
        assert WasMember(world, root, prot, history, k - 1, pid, history[k].recorded[pid]);
      }
    }
  }

  /**
   * Every signal of a reap goes to a process that was ours under the token its row still carries: a reused pid gets
   * none.
   */
  lemma SignalledIsOurs(world: World, root: Option<Pid>, prot: set<Pid>, history: seq<Memory>, log: seq<Sent>, e: Sent)
    requires History(world, root, prot, history) && GoodLog(world, prot, history, log) && e in log
    ensures world(e.at).rows.Some? && exists r :: r in world(e.at).rows.value && r.pid == e.pid && r.token == e.token
    ensures (e.pid in history[0].recorded && history[0].recorded[e.pid] == e.token)
      || exists j :: 0 <= j <= e.at && j + 1 < |history| && WasMember(world, root, prot, history, j, e.pid, e.token)
  {
    assert Justified(world, prot, history, e);
    RecordedIsOurs(world, root, prot, history, e.at + 1, e.pid);
  }

  /** Once learned, the leader's token never changes: a reused leader pid is never walked. */
  lemma {:induction false} RootTokenIsKept(
    world: World, root: Option<Pid>, prot: set<Pid>, history: seq<Memory>, i: nat, j: nat)
    requires History(world, root, prot, history) && i <= j < |history| && history[i].rootToken.Some?
    ensures history[j].rootToken == history[i].rootToken
  {
    if i < j {
      RootTokenIsKept(world, root, prot, history, i, j - 1);
      assert ScanStep(root, prot, world(j - 1).rows, history[j - 1], history[j]);
    }
  }

  /** No record is ever dropped. */
  lemma {:induction false} RecordsAreKept(
    world: World, root: Option<Pid>, prot: set<Pid>, history: seq<Memory>, i: nat, j: nat, pid: Pid)
    requires History(world, root, prot, history) && i <= j < |history| && pid in history[i].recorded
    ensures pid in history[j].recorded
  {
    if i < j {
      RecordsAreKept(world, root, prot, history, i, j - 1, pid);
      assert ScanStep(root, prot, world(j - 1).rows, history[j - 1], history[j]);
    }
  }

  /** `ScanResult` leaves no choice: a table and a memory determine the records after the scan. */
  lemma ScanIsDetermined(
    rows: seq<Row>, prot: set<Pid>, starts: set<Pid>, before: map<Pid, Token>, a: map<Pid, Token>, b: map<Pid, Token>)
    requires DistinctPids(rows) && ScanResult(rows, prot, starts, before, a)
    requires ScanResult(rows, prot, starts, before, b)
    ensures a == b
  {
    forall p ensures p in a ==> p in b && a[p] == b[p] {
      RecordAgrees(rows, prot, starts, before, a, b, p);
    }
    forall p ensures p in b ==> p in a {
      RecordAgrees(rows, prot, starts, before, b, a, p);
    }
  }

  lemma RecordAgrees(
    rows: seq<Row>, prot: set<Pid>, starts: set<Pid>, before: map<Pid, Token>, a: map<Pid, Token>, b: map<Pid, Token>,
    p: Pid)
    requires DistinctPids(rows) && ScanResult(rows, prot, starts, before, a)
    requires ScanResult(rows, prot, starts, before, b)
    ensures p in a ==> p in b && a[p] == b[p]
  {
    if p in a && !(p in before && a[p] == before[p]) {
      var r :| IsMember(rows, prot, starts, r) && r.pid == p && a[p] == r.token;
      assert b[p] == r.token;
    }
  }
}
