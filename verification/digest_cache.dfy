/** The nonce cache of the digest authenticator (auth/digest.go:60-82, 153-166): issuing, purging, and the counter
    that keeps a request from being replayed. */
module DigestCache {
  datatype Client = Client(nc: nat, lastSeen: int)

  type Clients = map<string, Client>

  /** What has happened, in order; a purge removes all its nonces at once. */
  datatype Fact = Issued(nonce: string) | Purged(nonces: set<string>) | Accepted(nonce: string, nc: nat)

  datatype State = State(clients: Clients, log: seq<Fact>)

  // ---------------------------------------------------------------- the steps

  /** `removed` are `count` entries none of which was seen later than an entry that stays. */
  ghost predicate Oldest(clients: Clients, removed: set<string>, count: int) {
    && removed <= clients.Keys && |removed| == count
    && forall r, k :: r in removed && k in clients && k !in removed ==> clients[r].lastSeen <= clients[k].lastSeen
  }

  /** The requests, one after the other; the sort is free to choose among entries seen at the same time. */
  datatype Event =
    | Issue(nonce: string, now: int, removed: set<string>)
    | Check(nonce: string, nc: nat, now: int)

  /** Whether a purge is due, and what it asks for. */
  predicate Due(size: int, tolerance: int, clients: Clients) {
    |clients| > size + tolerance
  }

  /** Slicing off the first `count` entries is an exception unless there are as many. */
  predicate CanPurge(clients: Clients, count: int) {
    0 <= count <= |clients|
  }

  predicate Fails(size: int, tolerance: int, s: State, e: Event) {
    e.Issue? && Due(size, tolerance, s.clients) && !CanPurge(s.clients, 2 * tolerance)
  }

  /** Nonces are random keys that are never drawn twice. */
  ghost predicate Possible(size: int, tolerance: int, s: State, e: Event) {
    match e
    case Issue(nonce, _, removed) =>
      && Issued(nonce) !in s.log && !Fails(size, tolerance, s, e)
      && if Due(size, tolerance, s.clients) then Oldest(s.clients, removed, 2 * tolerance) else removed == {}
    case Check(_, _, _) => true
  }

  predicate Accepts(clients: Clients, nonce: string, nc: nat) {
    nonce in clients && !(clients[nonce].nc != 0 && clients[nonce].nc >= nc)
  }

  function Next(s: State, e: Event): State {
    match e
    case Issue(nonce, now, removed) =>
      State((s.clients - removed)[nonce := Client(0, now)], s.log + [Purged(removed), Issued(nonce)])
    case Check(nonce, nc, now) =>
      if Accepts(s.clients, nonce, nc) then State(s.clients[nonce := Client(nc, now)], s.log + [Accepted(nonce, nc)]) else s
  }

  const INITIAL := State(map[], [])

  function After(s: State, events: seq<Event>): State
    decreases |events|
  {
    if events == [] then s else After(Next(s, events[0]), events[1..])
  }

  ghost predicate Run(size: int, tolerance: int, s: State, events: seq<Event>)
    decreases |events|
  {
    events == [] || (Possible(size, tolerance, s, events[0]) && Run(size, tolerance, Next(s, events[0]), events[1..]))
  }

  // ---------------------------------------------------------------- what a log says of a nonce

  function Front(log: seq<Fact>): seq<Fact>
    requires log != []
  {
    log[..|log| - 1]
  }

  function Last(log: seq<Fact>): Fact
    requires log != []
  {
    log[|log| - 1]
  }

  /** The last counter accepted for the nonce, zero when there is none. */
  ghost function Best(log: seq<Fact>, n: string): nat {
    if log == [] then 0
    else if Last(log).Accepted? && Last(log).nonce == n then Last(log).nc
    else Best(Front(log), n)
  }

  /** Issued and not purged since. */
  ghost predicate LiveAt(log: seq<Fact>, n: string) {
    log != [] &&
    if Last(log) == Issued(n) then true
    else if Last(log).Purged? && n in Last(log).nonces then false
    else LiveAt(Front(log), n)
  }

  /** Every fact was allowed when it was added: a nonce is issued once; an acceptance is for a live nonce, with a counter
      greater than the last one, or both zero. */
  ghost predicate Sound(log: seq<Fact>) {
    log != [] ==>
    && Sound(Front(log))
    && match Last(log)
       case Issued(n) => Issued(n) !in Front(log)
       case Purged(nonces) => forall n :: n in nonces ==> LiveAt(Front(log), n)
       case Accepted(n, nc) => LiveAt(Front(log), n) && (nc > Best(Front(log), n) || nc == Best(Front(log), n) == 0)
  }

  lemma Snoc(log: seq<Fact>, f: Fact)
    ensures Front(log + [f]) == log && Last(log + [f]) == f
  {
  }

  /** A live nonce was issued. */
  lemma {:induction false} LiveIssued(log: seq<Fact>, n: string)
    requires LiveAt(log, n)
    ensures Issued(n) in log
  {
    if Last(log) != Issued(n) {
      LiveIssued(Front(log), n);
    }
  }

  /** Once purged, a nonce is never live again. */
  lemma {:induction false} PurgedStaysDead(log: seq<Fact>, i: nat, n: string)
    requires Sound(log) && i < |log| && log[i].Purged? && n in log[i].nonces
    ensures !LiveAt(log, n) && Issued(n) in log
    decreases |log|
  {
    if i < |log| - 1 {
      assert Front(log)[i] == log[i];
      PurgedStaysDead(Front(log), i, n);
    } else {
      assert log[i] == Last(log);
      LiveIssued(Front(log), n);
    }
  }

  /** No counter accepted for a nonce exceeds the last one. */
  lemma {:induction false} BestIsGreatest(log: seq<Fact>, i: nat)
    requires Sound(log) && i < |log| && log[i].Accepted?
    ensures log[i].nc <= Best(log, log[i].nonce)
    decreases |log|
  {
    if i < |log| - 1 {
      assert Front(log)[i] == log[i];
      BestIsGreatest(Front(log), i);
    }
  }

  /** Of two acceptances of a nonce the later has the greater counter, unless both are zero. */
  lemma {:induction false} SoundIncreases(log: seq<Fact>, i: nat, j: nat)
    requires Sound(log) && i < j < |log| && log[i].Accepted? && log[j].Accepted? && log[i].nonce == log[j].nonce
    ensures log[i].nc < log[j].nc || log[i].nc == log[j].nc == 0
    decreases |log|
  {
    assert Front(log)[i] == log[i];
    if j < |log| - 1 {
      assert Front(log)[j] == log[j];
      SoundIncreases(Front(log), i, j);
    } else {
      BestIsGreatest(Front(log), i);
    }
  }

  /** An accepted nonce was issued before and not purged in between. */
  lemma {:induction false} SoundAlive(log: seq<Fact>, j: nat)
    requires Sound(log) && j < |log| && log[j].Accepted?
    ensures Issued(log[j].nonce) in log[..j]
    ensures forall i :: 0 <= i < j && log[i].Purged? ==> log[j].nonce !in log[i].nonces
    decreases |log|
  {
    var front, n := Front(log), log[j].nonce;
    if j < |log| - 1 {
      assert front[j] == log[j] && front[..j] == log[..j];
      SoundAlive(front, j);
      forall i | 0 <= i < j && log[i].Purged?
        ensures n !in log[i].nonces
      {
        assert front[i] == log[i];
      }
    } else {
      LiveIssued(front, n);
      forall i | 0 <= i < j && log[i].Purged?
        ensures n !in log[i].nonces
      {
        assert front[i] == log[i];
        if n in log[i].nonces {
          PurgedStaysDead(front, i, n);
        }
      }
    }
  }

  // ---------------------------------------------------------------- no replay

  /** The cache holds exactly the live nonces, each with the last counter accepted for it. */
  ghost predicate Inv(s: State) {
    && Sound(s.log)
    && (forall n :: n in s.clients <==> LiveAt(s.log, n))
    && (forall n :: n in s.clients ==> s.clients[n].nc == Best(s.log, n))
  }

  lemma InitialInv()
    ensures Inv(INITIAL)
  {
  }

  lemma CheckKeeps(s: State, nonce: string, nc: nat, now: int)
    requires Inv(s)
    ensures Inv(Next(s, Check(nonce, nc, now)))
  {
    if Accepts(s.clients, nonce, nc) {
      Snoc(s.log, Accepted(nonce, nc));
    }
  }

  /** A nonce that was never issued has never been accepted. */
  lemma {:induction false} NeverAccepted(log: seq<Fact>, n: string)
    requires Sound(log) && Issued(n) !in log
    ensures Best(log, n) == 0
  {
    if log != [] {
      NeverAccepted(Front(log), n);
      if Last(log).Accepted? && Last(log).nonce == n {
        LiveIssued(Front(log), n);
      }
    }
  }

  lemma IssueKeeps(size: int, tolerance: int, s: State, e: Event)
    requires Inv(s) && e.Issue? && Possible(size, tolerance, s, e)
    ensures Inv(Next(s, e))
  {
    var purged := s.log + [Purged(e.removed)];
    Snoc(s.log, Purged(e.removed));
    Snoc(purged, Issued(e.nonce));
    assert Next(s, e).log == purged + [Issued(e.nonce)];
    NeverAccepted(s.log, e.nonce);
  }

  lemma {:induction false} RunKeeps(size: int, tolerance: int, s: State, events: seq<Event>)
    requires Inv(s) && Run(size, tolerance, s, events)
    ensures Inv(After(s, events))
    decreases |events|
  {
    if events != [] {
      match events[0] {
        case Issue(_, _, _) => IssueKeeps(size, tolerance, s, events[0]);
        case Check(nonce, nc, now) => CheckKeeps(s, nonce, nc, now);
      }
      RunKeeps(size, tolerance, Next(s, events[0]), events[1..]);
    }
  }

  /** In every run: a pair of a nonce and a positive counter is accepted at most once, and the positive counters of a
      nonce increase strictly. */
  lemma NoReplay(size: int, tolerance: int, events: seq<Event>)
    requires Run(size, tolerance, INITIAL, events)
    ensures var log := After(INITIAL, events).log;
            forall i, j :: 0 <= i < j < |log| && log[i].Accepted? && log[j].Accepted? && log[i].nonce == log[j].nonce && log[j].nc > 0 ==>
              log[i].nc < log[j].nc
  {
    hide After, Run, Sound;
    InitialInv();
    RunKeeps(size, tolerance, INITIAL, events);
    var log := After(INITIAL, events).log;
    forall i, j | 0 <= i < j < |log| && log[i].Accepted? && log[j].Accepted? && log[i].nonce == log[j].nonce && log[j].nc > 0
      ensures log[i].nc < log[j].nc
    {
      SoundIncreases(log, i, j);
    }
  }

  /** In every run: nothing is accepted for a nonce before it is issued, nor after it is purged. */
  lemma OnlyWhileLive(size: int, tolerance: int, events: seq<Event>)
    requires Run(size, tolerance, INITIAL, events)
    ensures var log := After(INITIAL, events).log;
            forall j :: 0 <= j < |log| && log[j].Accepted? ==>
              && Issued(log[j].nonce) in log[..j]
              && forall i :: 0 <= i < j && log[i].Purged? ==> log[j].nonce !in log[i].nonces
  {
    hide After, Run, Sound;
    InitialInv();
    RunKeeps(size, tolerance, INITIAL, events);
    var log := After(INITIAL, events).log;
    forall j | 0 <= j < |log| && log[j].Accepted?
      ensures Issued(log[j].nonce) in log[..j]
      ensures forall i :: 0 <= i < j && log[i].Purged? ==> log[j].nonce !in log[i].nonces
    {
      SoundAlive(log, j);
    }
  }

  ghost predicate AcceptedTwice(log: seq<Fact>, nonce: string, nc: nat) {
    exists i, j :: 0 <= i < j < |log| && log[i] == Accepted(nonce, nc) && log[j] == Accepted(nonce, nc)
  }

  /** Whether any nonce can be issued at all: with a negative bound every request is due a purge, which an empty cache
      can only serve when nothing is to be purged. */
  predicate CanIssue(size: int, tolerance: int) {
    0 <= size + tolerance || tolerance == 0
  }

  lemma ZeroReplays(size: int, tolerance: int, nonce: string) returns (events: seq<Event>)
    requires CanIssue(size, tolerance)
    ensures Run(size, tolerance, INITIAL, events) && AcceptedTwice(After(INITIAL, events).log, nonce, 0)
  {
    var issue, check := Issue(nonce, 0, {}), Check(nonce, 0, 0);
    events := [issue, check, check];
    var s1 := Next(INITIAL, issue);
    var s2 := Next(s1, check);
    var s3 := Next(s2, check);
    assert Possible(size, tolerance, INITIAL, issue);
    assert events[1..] == [check, check] && [check, check][1..] == [check] && [check][1..] == [];
    assert After(s3, []) == s3;
    assert After(s2, [check]) == s3;
    assert After(s1, [check, check]) == s3;
    assert Run(size, tolerance, s3, []);
    assert Run(size, tolerance, s2, [check]);
    assert Run(size, tolerance, s1, [check, check]);
    assert s3.log[2] == Accepted(nonce, 0) && s3.log[3] == Accepted(nonce, 0);
  }

  lemma {:induction false} NothingHappens(size: int, tolerance: int, events: seq<Event>)
    requires !CanIssue(size, tolerance) && Run(size, tolerance, INITIAL, events)
    ensures After(INITIAL, events) == INITIAL
    decreases |events|
  {
    if events != [] {
      assert Next(INITIAL, events[0]) == INITIAL;
      NothingHappens(size, tolerance, events[1..]);
    }
  }

  /** The counter zero is the exact exception: some run accepts a pair twice if and only if its counter is zero and
      nonces can be issued at all. */
  lemma OnlyZeroReplays(size: int, tolerance: int, nonce: string, nc: nat)
    ensures nc == 0 && CanIssue(size, tolerance) <==>
            exists events :: Run(size, tolerance, INITIAL, events) && AcceptedTwice(After(INITIAL, events).log, nonce, nc)
  {
    hide Run, After, CanIssue;
    if nc == 0 && CanIssue(size, tolerance) {
      var events := ZeroReplays(size, tolerance, nonce);
      assert exists es :: Run(size, tolerance, INITIAL, es) && AcceptedTwice(After(INITIAL, es).log, nonce, nc);
    } else {
      forall events | Run(size, tolerance, INITIAL, events)
        ensures !AcceptedTwice(After(INITIAL, events).log, nonce, nc)
      {
        if nc == 0 {
          NothingHappens(size, tolerance, events);
        } else {
          NoReplay(size, tolerance, events);
        }
      }
      assert !exists es :: Run(size, tolerance, INITIAL, es) && AcceptedTwice(After(INITIAL, es).log, nonce, nc);
    }
  }

  // ---------------------------------------------------------------- the size of the cache

  lemma {:induction false} RunSnoc(size: int, tolerance: int, s: State, events: seq<Event>, e: Event)
    requires Run(size, tolerance, s, events) && Possible(size, tolerance, After(s, events), e)
    ensures Run(size, tolerance, s, events + [e]) && After(s, events + [e]) == Next(After(s, events), e)
    decreases |events|
  {
    if events == [] {
      assert [] + [e] == [e] && [e][1..] == [];
      assert Run(size, tolerance, Next(s, e), []);
    } else {
      assert (events + [e])[1..] == events[1..] + [e];
      RunSnoc(size, tolerance, Next(s, events[0]), events[1..], e);
    }
  }

  lemma IssueSize(size: int, tolerance: int, s: State, e: Event)
    requires Inv(s) && e.Issue? && Possible(size, tolerance, s, e)
    ensures |Next(s, e).clients| == |s.clients| - |e.removed| + 1
  {
    if e.nonce in s.clients {
      LiveIssued(s.log, e.nonce);
    }
    var rest := s.clients - e.removed;
    assert rest.Keys == s.clients.Keys - e.removed;
    assert Next(s, e).clients.Keys == rest.Keys + {e.nonce};
  }

  /** The cache never outgrows its bound, and no purge is asked for more entries than there are. */
  ghost predicate Bounded(size: int, tolerance: int, s: State) {
    |s.clients| <= size + tolerance + 1 && forall e :: !Fails(size, tolerance, s, e)
  }

  lemma {:induction false} RunBounded(size: int, tolerance: int, s: State, events: seq<Event>)
    requires 1 <= tolerance <= size + 1
    requires Inv(s) && |s.clients| <= size + tolerance + 1 && Run(size, tolerance, s, events)
    ensures Bounded(size, tolerance, After(s, events))
    decreases |events|
  {
    if events != [] {
      match events[0] {
        case Issue(_, _, _) =>
          IssueKeeps(size, tolerance, s, events[0]);
          IssueSize(size, tolerance, s, events[0]);
        case Check(nonce, nc, now) =>
          CheckKeeps(s, nonce, nc, now);
          assert Accepts(s.clients, nonce, nc) ==> s.clients[nonce := Client(nc, now)].Keys == s.clients.Keys;
      }
      RunBounded(size, tolerance, Next(s, events[0]), events[1..]);
    }
  }

  function NonceOf(i: nat): string {
    seq(i, k => 'n')
  }

  /** Issuing distinct nonces fills the cache up to the point where a purge is due. */
  lemma {:induction false} Fill(size: int, tolerance: int, k: nat) returns (events: seq<Event>)
    requires k <= size + tolerance + 1
    ensures Run(size, tolerance, INITIAL, events) && Inv(After(INITIAL, events)) && |After(INITIAL, events).clients| == k
    ensures forall i :: i >= k ==> Issued(NonceOf(i)) !in After(INITIAL, events).log
  {
    events := [];
    if k > 0 {
      var before := Fill(size, tolerance, k - 1);
      var s := After(INITIAL, before);
      var e := Issue(NonceOf(k - 1), 0, {});
      RunSnoc(size, tolerance, INITIAL, before, e);
      IssueKeeps(size, tolerance, s, e);
      IssueSize(size, tolerance, s, e);
      events := before + [e];
      forall i | i >= k
        ensures Issued(NonceOf(i)) !in After(INITIAL, events).log
      {
        assert |NonceOf(i)| == i && |NonceOf(k - 1)| == k - 1;
      }
    } else {
      InitialInv();
    }
  }

  /** Outside the range of settings some run breaks the bound or makes a purge fail. */
  lemma Unbounded(size: int, tolerance: int) returns (events: seq<Event>)
    requires !(1 <= tolerance <= size + 1)
    ensures Run(size, tolerance, INITIAL, events) && !Bounded(size, tolerance, After(INITIAL, events))
  {
    if size + tolerance + 1 < 0 {
      events := [];
    } else {
      events := Fill(size, tolerance, size + tolerance + 1);
      var s := After(INITIAL, events);
      var e := Issue(NonceOf(size + tolerance + 1), 0, {});
      if tolerance == 0 {
        assert Oldest(s.clients, {}, 0);
        RunSnoc(size, tolerance, INITIAL, events, e);
        IssueSize(size, tolerance, s, e);
        events := events + [e];
      } else {
        assert Fails(size, tolerance, s, e);
      }
    }
  }

  /** The exact settings for which, in every run, the cache stays within size + tolerance + 1 entries and no purge fails. */
  lemma BoundedIff(size: int, tolerance: int)
    ensures 1 <= tolerance <= size + 1 <==>
            forall events :: Run(size, tolerance, INITIAL, events) ==> Bounded(size, tolerance, After(INITIAL, events))
  {
    hide Run, After, Bounded;
    if 1 <= tolerance <= size + 1 {
      InitialInv();
      forall events | Run(size, tolerance, INITIAL, events)
        ensures Bounded(size, tolerance, After(INITIAL, events))
      {
        RunBounded(size, tolerance, INITIAL, events);
      }
    } else {
      var events := Unbounded(size, tolerance);
    }
  }

  // ---------------------------------------------------------------- the cache, read off the requests

  ghost function Latest(events: seq<Event>): Event
    requires events != []
  {
    events[|events| - 1]
  }

  ghost function Earlier(events: seq<Event>): seq<Event>
    requires events != []
  {
    events[..|events| - 1]
  }

  /** Issued, and not purged since. */
  ghost predicate Live(events: seq<Event>, n: string) {
    events != [] &&
    match Latest(events)
    case Issue(nonce, _, removed) => nonce == n || (n !in removed && Live(Earlier(events), n))
    case Check(_, _, _) => Live(Earlier(events), n)
  }

  /** The last request for the nonce was accepted, if it was a check: its nonce was live, and the counter before it was
      zero or smaller. */
  ghost predicate Taken(events: seq<Event>, n: string)
    requires events != []
    decreases |events|, 0
  {
    match Latest(events)
    case Issue(_, _, _) => false
    case Check(nonce, nc, _) =>
      nonce == n && Live(Earlier(events), n) && (Counter(Earlier(events), n) == 0 || Counter(Earlier(events), n) < nc)
  }

  /** The counter of the last request that was accepted for the nonce since it was issued, and zero when there is none. */
  ghost function Counter(events: seq<Event>, n: string): nat
    decreases |events|, 1
  {
    if events == [] then 0
    else if Latest(events).Issue? && Latest(events).nonce == n then 0
    else if Taken(events, n) then Latest(events).nc
    else Counter(Earlier(events), n)
  }

  /** When the nonce was last issued or accepted. */
  ghost function Seen(events: seq<Event>, n: string): int {
    if events == [] then 0
    else if (Latest(events).Issue? && Latest(events).nonce == n) || Taken(events, n) then Latest(events).now
    else Seen(Earlier(events), n)
  }

  /** In every run the cache is a function of the requests: the live nonces, each with its last accepted counter and the
      time of the last request that issued it or was accepted for it. */
  lemma {:induction false} CacheIsHistory(size: int, tolerance: int, events: seq<Event>)
    requires Run(size, tolerance, INITIAL, events)
    ensures var clients := After(INITIAL, events).clients;
            forall n :: (n in clients <==> Live(events, n))
                        && (n in clients ==> clients[n] == Client(Counter(events, n), Seen(events, n)))
    decreases |events|
  {
    if events != [] {
      RunFront(size, tolerance, INITIAL, events);
      CacheIsHistory(size, tolerance, Earlier(events));
    }
  }

  lemma {:induction false} RunFront(size: int, tolerance: int, s: State, events: seq<Event>)
    requires Run(size, tolerance, s, events) && events != []
    ensures Run(size, tolerance, s, Earlier(events)) && Possible(size, tolerance, After(s, Earlier(events)), Latest(events))
    ensures After(s, events) == Next(After(s, Earlier(events)), Latest(events))
    decreases |events|
  {
    if |events| > 1 {
      assert Earlier(events)[1..] == Earlier(events[1..]) && Latest(events[1..]) == Latest(events);
      RunFront(size, tolerance, Next(s, events[0]), events[1..]);
    } else {
      assert events[1..] == [];
      assert After(Next(s, events[0]), []) == Next(s, events[0]);
    }
  }

  /** The request that issued the nonce or was last accepted for it, by its place in the run: nothing after it issued the
      nonce, or was accepted for it. */
  lemma {:induction false} SeenAt(events: seq<Event>, n: string) returns (i: nat)
    requires Live(events, n)
    ensures i < |events| && events[i].now == Seen(events, n) && events[i].nonce == n
    ensures events[i].Issue? || Taken(events[..i + 1], n)
    ensures forall j :: i < j < |events| && events[j].nonce == n ==> events[j].Check? && !Taken(events[..j + 1], n)
    decreases |events|
  {
    assert events[..|events|] == events;
    if (Latest(events).Issue? && Latest(events).nonce == n) || Taken(events, n) {
      i := |events| - 1;
    } else {
      i := SeenAt(Earlier(events), n);
      assert forall j :: 0 <= j < |events| - 1 ==> Earlier(events)[j] == events[j] && Earlier(events)[..j + 1] == events[..j + 1];
    }
  }

  /** Whatever the run, a purge takes no nonce that was issued or accepted later than one it leaves. */
  lemma PurgeTakesOldest(size: int, tolerance: int, events: seq<Event>, e: Event)
    requires Run(size, tolerance, INITIAL, events + [e]) && e.Issue?
    ensures forall r, k :: r in e.removed && k !in e.removed && Live(events, k) ==>
              Live(events, r) && Seen(events, r) <= Seen(events, k)
  {
    assert Earlier(events + [e]) == events && Latest(events + [e]) == e;
    RunFront(size, tolerance, INITIAL, events + [e]);
    CacheIsHistory(size, tolerance, events);
  }

  // ---------------------------------------------------------------- the object

  datatype Entry = Entry(nonce: string, lastSeen: int)

  ghost predicate Sorted(entries: seq<Entry>) {
    forall i, j :: 0 <= i < j < |entries| ==> entries[i].lastSeen <= entries[j].lastSeen
  }

  /** The entries of the cache, each nonce once. */
  ghost predicate Lists(entries: seq<Entry>, clients: Clients) {
    && (forall i, j :: 0 <= i < j < |entries| ==> entries[i].nonce != entries[j].nonce)
    && (forall i :: 0 <= i < |entries| ==> entries[i].nonce in clients && entries[i].lastSeen == clients[entries[i].nonce].lastSeen)
    && |entries| == |clients|
  }

  class DigestAuth {
    const size: int
    const tolerance: int
    var clients: Clients
    ghost var log: seq<Fact>

    /** The requests served so far. */
    ghost var events: seq<Event>

    ghost function Value(): State
      reads this
    {
      State(clients, log)
    }

    ghost predicate Valid()
      reads this
    {
      Run(size, tolerance, INITIAL, events) && Value() == After(INITIAL, events)
    }

    constructor (size: int, tolerance: int)
      ensures Value() == INITIAL && Valid() && events == [] && this.size == size && this.tolerance == tolerance
    {
      this.size, this.tolerance := size, tolerance;
      clients, log, events := map[], [], [];
    }

    /** Collects the entries in whatever order the map is walked, and sorts each into place. */
    method SortedEntries() returns (entries: seq<Entry>)
      ensures Sorted(entries) && Lists(entries, clients)
    {
      entries := [];
      var left := clients.Keys;
      while left != {}
        invariant left <= clients.Keys && |entries| + |left| == |clients|
        invariant Sorted(entries) && forall i, j :: 0 <= i < j < |entries| ==> entries[i].nonce != entries[j].nonce
        invariant forall i :: 0 <= i < |entries| ==>
                    entries[i].nonce in clients && entries[i].nonce !in left && entries[i].lastSeen == clients[entries[i].nonce].lastSeen
        decreases |left|
      {
        var nonce :| nonce in left;
        var entry := Entry(nonce, clients[nonce].lastSeen);
        var i := 0;
        while i < |entries| && entries[i].lastSeen <= entry.lastSeen
          invariant 0 <= i <= |entries| && forall k :: 0 <= k < i ==> entries[k].lastSeen <= entry.lastSeen
        {
          i := i + 1;
        }
        entries := entries[..i] + [entry] + entries[i..];
        left := left - {nonce};
      }
    }

    /** Removes the oldest entries; false is an exception. */
    method Purge(count: int) returns (ok: bool, ghost removed: set<string>)
      modifies this`clients
      ensures ok <==> CanPurge(old(clients), count)
      ensures !ok ==> clients == old(clients)
      ensures ok ==> Oldest(old(clients), removed, count) && clients == old(clients) - removed
    {
      hide Nonces, Sorted, Lists, Oldest;
      var cache := SortedEntries();
      removed := {};
      NoncesSize(cache, 0);
      assert |cache| == |clients| by {
        ListsAll(cache, clients);
      }
      if !(0 <= count <= |cache|) {
        return false, removed;
      }
      var i := 0;
      while i < count
        invariant 0 <= i <= count
        invariant removed == Nonces(cache, i) && clients == old(clients) - removed
      {
        clients := clients - {cache[i].nonce};
        removed := removed + {cache[i].nonce};
        NoncesStep(cache, i);
        i := i + 1;
      }
      OldestFirst(old(clients), cache, count);
      return true, removed;
    }

    /** Issues a nonce, after a purge when one is due; false is an exception. Of the nonces that were live, none that is
        purged was last issued or accepted later than one that stays. */
    method RequireAuth(nonce: string, now: int) returns (ok: bool, ghost removed: set<string>)
      requires Valid() && Issued(nonce) !in log
      modifies this`clients, this`log, this`events
      ensures Valid()
      ensures ok <==> |old(clients)| <= size + tolerance || 0 <= 2 * tolerance <= |old(clients)|
      ensures !ok ==> Value() == old(Value()) && events == old(events)
      ensures ok ==> |removed| == if |old(clients)| > size + tolerance then 2 * tolerance else 0
      ensures ok ==> events == old(events) + [Issue(nonce, now, removed)]
      ensures ok ==> Possible(size, tolerance, old(Value()), Issue(nonce, now, removed))
      ensures ok ==> Value() == Next(old(Value()), Issue(nonce, now, removed))
      ensures ok ==> forall r, k :: r in removed && Live(old(events), k) && k !in removed ==>
                       Live(old(events), r) && Seen(old(events), r) <= Seen(old(events), k)
    {
      hide Run, After, Live, Seen;
      ok, removed := true, {};
      if |clients| > size + tolerance {
        ok, removed := Purge(tolerance * 2);
        if !ok {
          return;
        }
      }
      ghost var e := Issue(nonce, now, removed);
      clients := clients[nonce := Client(0, now)];
      log := log + [Purged(removed), Issued(nonce)];
      RunSnoc(size, tolerance, INITIAL, events, e);
      CacheIsHistory(size, tolerance, events);
      events := events + [e];
    }

    /** The session part of a request whose digest has been verified: accepted if and only if the nonce is live and its
        last counter is zero or smaller, in terms of the requests served before. */
    method CheckSession(nonce: string, nc: nat, now: int) returns (ok: bool)
      requires Valid()
      modifies this`clients, this`log, this`events
      ensures Valid() && events == old(events) + [Check(nonce, nc, now)]
      ensures ok <==> Live(old(events), nonce) && (Counter(old(events), nonce) == 0 || Counter(old(events), nonce) < nc)
      ensures Value() == Next(old(Value()), Check(nonce, nc, now))
    {
      hide Run, After, Live, Counter;
      ghost var e := Check(nonce, nc, now);
      RunSnoc(size, tolerance, INITIAL, events, e);
      CacheIsHistory(size, tolerance, events);
      events := events + [e];
      if nonce !in clients {
        return false;
      }
      var client := clients[nonce];
      if client.nc != 0 && client.nc >= nc {
        return false;
      }
      clients := clients[nonce := Client(nc, now)];
      log := log + [Accepted(nonce, nc)];
      return true;
    }
  }

  ghost function Nonces(cache: seq<Entry>, n: nat): set<string>
    requires n <= |cache|
  {
    set k | 0 <= k < n :: cache[k].nonce
  }

  lemma NoncesStep(cache: seq<Entry>, n: nat)
    requires n < |cache|
    ensures Nonces(cache, n + 1) == Nonces(cache, n) + {cache[n].nonce}
  {
  }

  lemma {:induction false} NoncesSize(cache: seq<Entry>, n: nat)
    requires n <= |cache|
    ensures n == 0 ==> Nonces(cache, n) == {}
    ensures (forall i, j :: 0 <= i < j < |cache| ==> cache[i].nonce != cache[j].nonce) ==> |Nonces(cache, n)| == n
  {
    if n > 0 {
      NoncesSize(cache, n - 1);
      NoncesStep(cache, n - 1);
    }
  }

  lemma ListsAll(cache: seq<Entry>, clients: Clients)
    requires Lists(cache, clients)
    ensures |cache| == |clients| && Nonces(cache, |cache|) == clients.Keys
  {
    NoncesSize(cache, |cache|);
    FullSubset(Nonces(cache, |cache|), clients.Keys);
  }

  lemma FullSubset(a: set<string>, b: set<string>)
    requires a <= b && |a| == |b|
    ensures a == b
  {
    assert b == a + (b - a);
  }

  /** The first entries in sorted order are the oldest. */
  lemma OldestFirst(clients: Clients, cache: seq<Entry>, count: int)
    requires Sorted(cache) && Lists(cache, clients) && 0 <= count <= |cache|
    ensures Oldest(clients, Nonces(cache, count), count)
  {
    ListsAll(cache, clients);
    NoncesSize(cache, count);
    var removed := Nonces(cache, count);
    forall r, k | r in removed && k in clients && k !in removed
      ensures clients[r].lastSeen <= clients[k].lastSeen
    {
      var i :| 0 <= i < count && cache[i].nonce == r;
      assert k in Nonces(cache, |cache|);
      var j :| 0 <= j < |cache| && cache[j].nonce == k;
    }
  }
}
