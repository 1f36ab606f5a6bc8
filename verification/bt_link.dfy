/** What the two Bluetooth client activities share: the platform's view of RFCOMM
    sockets, the background work they queue (coroutine launches become tasks that run
    later, one at a time, in any order), connection errors, and the string tests
    their status logic uses. */
module BtLink {
  import opened Wrappers

  /** A socket, by the order in which it was created. */
  type SocketId = nat

  /** A launched connection coroutine, by the order in which it was launched. */
  type JobId = nat

  /** The sockets as the platform sees them: how many were created, which are
      connected, and on which `close()` was called for the socket and for its output
      stream. */
  datatype Link = Link(
    next: SocketId,
    connected: set<SocketId>,
    socketCloses: set<SocketId>,
    streamCloses: set<SocketId>)

  const NoSockets: Link := Link(0, {}, {}, {})

  /** Every socket the link knows about was created. */
  predicate LinkValid(l: Link) {
    (forall id :: id in l.connected ==> id < l.next)
    && (forall id :: id in l.socketCloses ==> id < l.next)
    && (forall id :: id in l.streamCloses ==> id < l.next)
  }

  /** `createRfcommSocketToServiceRecord`: a new socket, neither connected nor closed. */
  function Create(l: Link): (r: (SocketId, Link))
    ensures r.0 == l.next && r.1.next == l.next + 1
    ensures LinkValid(l) ==> LinkValid(r.1)
    ensures LinkValid(l) ==> r.0 !in l.connected && r.0 !in l.socketCloses && r.0 !in l.streamCloses
    ensures r.1.connected == l.connected && r.1.socketCloses == l.socketCloses
    ensures r.1.streamCloses == l.streamCloses
  {
    (l.next, l.(next := l.next + 1))
  }

  /** `isConnected` of a socket field, false when the field is null. */
  predicate IsConnected(l: Link, socket: Option<SocketId>) {
    socket.Some? && socket.value in l.connected
  }

  /** `connect()` on a socket that succeeds. */
  function ConnectOf(l: Link, id: SocketId): (r: Link)
    ensures id in r.connected
    ensures r.socketCloses == l.socketCloses && r.streamCloses == l.streamCloses && r.next == l.next
    ensures LinkValid(l) && id < l.next ==> LinkValid(r)
  {
    l.(connected := l.connected + {id})
  }

  /** `close()` on a socket: it is no longer connected. */
  function CloseSocketOf(l: Link, id: SocketId): (r: Link)
    ensures id in r.socketCloses && id !in r.connected
    ensures LinkValid(l) && id < l.next ==> LinkValid(r)
    ensures r.streamCloses == l.streamCloses && r.next == l.next
    ensures forall x :: x != id ==> (x in r.connected <==> x in l.connected)
  {
    l.(connected := l.connected - {id}, socketCloses := l.socketCloses + {id})
  }

  /** `close()` on a socket's output stream. */
  function CloseStreamOf(l: Link, id: SocketId): (r: Link)
    ensures id in r.streamCloses
    ensures LinkValid(l) && id < l.next ==> LinkValid(r)
    ensures r.connected == l.connected && r.socketCloses == l.socketCloses && r.next == l.next
  {
    l.(streamCloses := l.streamCloses + {id})
  }

  /** Work launched in the background: a connection attempt (with the job handle it
      belongs to and what it connects to), a write of one message, or a search of the
      paired devices. */
  datatype Task<D> = Connect(job: JobId, target: D) | Send(message: string) | Lookup

  /** How many connection attempts are queued. */
  function ConnectCount<D>(q: seq<Task<D>>): (n: nat)
    ensures n <= |q|
  {
    if |q| == 0 then 0 else (if q[0].Connect? then 1 else 0) + ConnectCount(q[1..])
  }

  /** Every queued connection attempt belongs to job `job`. */
  predicate OwnedBy<D>(q: seq<Task<D>>, job: Option<JobId>) {
    forall i :: 0 <= i < |q| && q[i].Connect? ==> job == Some(q[i].job)
  }

  /** `connectionJob?.cancel()`: the attempts of that job never run. Nothing else is
      touched. */
  function CancelJob<D>(q: seq<Task<D>>, job: Option<JobId>): (r: seq<Task<D>>)
    ensures |r| <= |q|
    ensures forall t :: t in r ==> t in q
    ensures forall t :: t in q && !(t.Connect? && job == Some(t.job)) ==> t in r
    ensures forall t :: t in r ==> !(t.Connect? && job == Some(t.job))
    ensures job.None? ==> r == q
  {
    if job.None? || |q| == 0 then q
    else if q[0].Connect? && q[0].job == job.value then CancelJob(q[1..], job)
    else [q[0]] + CancelJob(q[1..], job)
  }

  lemma {:induction false} ConnectCountAppend<D>(a: seq<Task<D>>, b: seq<Task<D>>)
    ensures ConnectCount(a + b) == ConnectCount(a) + ConnectCount(b)
    decreases |a|
  {
    if |a| == 0 {
      assert a + b == b;
    } else {
      assert (a + b)[1..] == a[1..] + b;
      ConnectCountAppend(a[1..], b);
    }
  }

  /** Running task `k` removes one attempt from the count exactly when it is one. */
  lemma {:induction false} ConnectCountRemoveAt<D>(q: seq<Task<D>>, k: nat)
    requires k < |q|
    ensures ConnectCount(RemoveAt(q, k)) == ConnectCount(q) - (if q[k].Connect? then 1 else 0)
    decreases k
  {
    if k == 0 {
      assert RemoveAt(q, k) == q[1..];
    } else {
      ConnectCountRemoveAt(q[1..], k - 1);
      assert RemoveAt(q, k) == [q[0]] + RemoveAt(q[1..], k - 1);
      assert RemoveAt(q, k)[1..] == RemoveAt(q[1..], k - 1);
    }
  }

  /** A queue with no attempt counted holds none. */
  lemma {:induction false} NoConnect<D>(q: seq<Task<D>>)
    requires ConnectCount(q) == 0
    ensures forall i :: 0 <= i < |q| ==> !q[i].Connect?
    decreases |q|
  {
    if |q| > 0 {
      NoConnect(q[1..]);
      assert forall i :: 1 <= i < |q| ==> q[i] == q[1..][i - 1];
    }
  }

  /** Cancelling the job that owns every attempt leaves none. */
  lemma {:induction false} CancelOwned<D>(q: seq<Task<D>>, job: Option<JobId>)
    requires OwnedBy(q, job) && job.Some?
    ensures ConnectCount(CancelJob(q, job)) == 0
    decreases |q|
  {
    if |q| > 0 {
      assert OwnedBy(q[1..], job) by {
        assert forall i :: 0 <= i < |q[1..]| ==> q[1..][i] == q[i + 1];
      }
      CancelOwned(q[1..], job);
      if !(q[0].Connect? && q[0].job == job.value) {
        assert !q[0].Connect?;
        assert ([q[0]] + CancelJob(q[1..], job))[1..] == CancelJob(q[1..], job);
      }
    }
  }

  /** A queue without attempts is owned by any job. */
  lemma NoConnectOwned<D>(q: seq<Task<D>>, job: Option<JobId>)
    requires ConnectCount(q) == 0
    ensures OwnedBy(q, job)
  {
    NoConnect(q);
  }

  /** Queueing a write or removing a task keeps the attempts owned by the job. */
  lemma OwnedAfter<D>(q: seq<Task<D>>, job: Option<JobId>, k: nat, m: string)
    requires OwnedBy(q, job)
    ensures k < |q| ==> OwnedBy(RemoveAt(q, k), job)
    ensures OwnedBy(q + [Send(m)], job)
  {
  }

  /** The ways a connection attempt fails, by exception type. */
  datatype ConnectError = IoError(message: string) | SecurityError | OtherError(className: string)

  /** A queue holding no attempt counts none. */
  lemma {:induction false} NoConnectCount<D>(q: seq<Task<D>>)
    requires forall i :: 0 <= i < |q| ==> !q[i].Connect?
    ensures ConnectCount(q) == 0
    decreases |q|
  {
    if |q| > 0 {
      assert forall i :: 0 <= i < |q[1..]| ==> q[1..][i] == q[i + 1];
      NoConnectCount(q[1..]);
    }
  }

  /** Cancelling the owning job (or none, when nothing is owned) leaves no attempt, so
      any job owns what is left. */
  lemma CancelClears<D>(q: seq<Task<D>>, job: Option<JobId>, other: Option<JobId>)
    requires OwnedBy(q, job)
    ensures ConnectCount(CancelJob(q, job)) == 0
    ensures OwnedBy(CancelJob(q, job), other)
  {
    if job.Some? {
      CancelOwned(q, job);
    } else {
      NoConnectCount(q);
    }
    NoConnectOwned(CancelJob(q, job), other);
  }

  /** Cancelling from a queue without attempts, then launching job `n`: one attempt,
      owned by `n`. */
  lemma Launch<D>(q: seq<Task<D>>, job: Option<JobId>, n: JobId, d: D)
    requires ConnectCount(q) == 0
    ensures ConnectCount(CancelJob(q, job) + [Connect(n, d)]) == 1
    ensures OwnedBy(CancelJob(q, job) + [Connect(n, d)], Some(n))
  {
    var c := CancelJob(q, job);
    NoConnect(q);
    assert forall i :: 0 <= i < |c| ==> !c[i].Connect? by {
      forall i | 0 <= i < |c| ensures !c[i].Connect? {
        assert c[i] in q;
      }
    }
    NoConnectCount(c);
    ConnectCountAppend(c, [Connect(n, d)]);
    assert [Connect(n, d)][1..] == [];
  }

  /** Cancelling a job with nothing queued changes nothing. */
  lemma {:induction false} CancelJobIdle<D>(q: seq<Task<D>>, job: Option<JobId>)
    requires forall t :: t in q ==> !(t.Connect? && job == Some(t.job))
    ensures CancelJob(q, job) == q
    decreases |q|
  {
    if job.Some? && |q| > 0 {
      assert q[0] in q;
      assert forall t :: t in q[1..] ==> t in q;
      CancelJobIdle(q[1..], job);
      assert q == [q[0]] + q[1..];
    }
  }

  /** Running the one queued attempt leaves none, also after queueing a write. */
  lemma RunLast<D>(q: seq<Task<D>>, k: nat, m: string, job: Option<JobId>)
    requires k < |q| && q[k].Connect? && ConnectCount(q) <= 1 && OwnedBy(q, job)
    ensures ConnectCount(q) == 1
    ensures ConnectCount(RemoveAt(q, k)) == 0 && OwnedBy(RemoveAt(q, k), job)
    ensures ConnectCount(RemoveAt(q, k) + [Send(m)]) == 0 && OwnedBy(RemoveAt(q, k) + [Send(m)], job)
  {
    OwnedAfter(q, job, k, m);
    OwnedAfter(RemoveAt(q, k), job, 0, m);
    ConnectCountRemoveAt(q, k);
    ConnectCountAppend(RemoveAt(q, k), [Send(m)]);
    var w: seq<Task<D>> := [Send(m)];
    assert w[1..] == [];
  }

  /** Which `close()` calls throw an `IOException`: the output stream's, the socket's. */
  datatype CloseFailures = CloseFailures(stream: bool, socket: bool)

  /** How a connection attempt ends: the socket could not be created, it was created
      but `connect()` threw, or it connected. */
  datatype ConnectOutcome = CreateFailed(err: ConnectError) | ConnectFailed(err: ConnectError) | Connected

  /** `startsWith`. */
  predicate StartsWith(s: string, prefix: string) {
    |prefix| <= |s| && s[..|prefix|] == prefix
  }

  /** `contains`: the part starts at some position of the string. */
  predicate Contains(s: string, part: string)
    decreases |s|
  {
    StartsWith(s, part) || (|s| > 0 && Contains(s[1..], part))
  }

  /** A part found at position `i` is contained. */
  lemma {:induction false} ContainsAt(s: string, part: string, i: nat)
    requires i + |part| <= |s| && s[i..i + |part|] == part
    ensures Contains(s, part)
    decreases i
  {
    if i > 0 {
      assert s[1..][i - 1..i - 1 + |part|] == s[i..i + |part|];
      ContainsAt(s[1..], part, i - 1);
    }
  }

  /** ASCII lower case; other characters are kept. */
  function Lower(c: char): (d: char)
    ensures 'A' <= c <= 'Z' ==> d as int == c as int + 32
    ensures !('A' <= c <= 'Z') ==> d == c
    ensures !('A' <= d <= 'Z')
  {
    if 'A' <= c <= 'Z' then (c as int + 32) as char else c
  }

  function LowerAll(s: string): (r: string)
    ensures |r| == |s| && forall i :: 0 <= i < |s| ==> r[i] == Lower(s[i])
  {
    if |s| == 0 then "" else [Lower(s[0])] + LowerAll(s[1..])
  }

  /** `equals(other, ignoreCase = true)`, for ASCII letters. */
  predicate EqualsIgnoreCase(a: string, b: string) {
    |a| == |b| && forall i :: 0 <= i < |a| ==> Lower(a[i]) == Lower(b[i])
  }

  /** Two strings are equal ignoring case exactly when their lower-case forms are
      equal; hence the relation is an equivalence. */
  lemma IgnoreCaseIsLowerEquality(a: string, b: string)
    ensures EqualsIgnoreCase(a, b) <==> LowerAll(a) == LowerAll(b)
  {
    if LowerAll(a) == LowerAll(b) {
      assert |a| == |b|;
      forall i | 0 <= i < |a| ensures Lower(a[i]) == Lower(b[i]) {
        assert LowerAll(a)[i] == LowerAll(b)[i];
      }
    }
  }

  lemma IgnoreCaseEquivalence(a: string, b: string, c: string)
    ensures EqualsIgnoreCase(a, a)
    ensures EqualsIgnoreCase(a, b) ==> EqualsIgnoreCase(b, a)
    ensures EqualsIgnoreCase(a, b) && EqualsIgnoreCase(b, c) ==> EqualsIgnoreCase(a, c)
  {
    IgnoreCaseIsLowerEquality(a, b);
    IgnoreCaseIsLowerEquality(b, c);
    IgnoreCaseIsLowerEquality(a, c);
    IgnoreCaseIsLowerEquality(b, a);
  }
}
