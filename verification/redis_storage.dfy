/** `RedisStorage` (src/redis_client.py): every command goes through
    `_execute_with_retry`, which lazily creates the client, makes up to three
    attempts, sleeps `0.5 s * (attempt + 1)` between them, counts failures,
    and tears the client down once more than five failures have accumulated.

    The server is a script: one `Outcome` per attempt, consumed in order (an
    exhausted script fails every further attempt). A client is identified by
    its creation number, so "a fresh client" is observable. Sleeps are in
    milliseconds.
 */
module RedisStorage {
  import opened Wrappers
  import opened Common

  const MaxRetries: nat := 3
  const ErrorThreshold: nat := 5

  /** What one attempt of a command does on the server: it answers, or the
      client raises. */
  datatype Outcome<T> = Reply(value: T) | Raise

  /** The client handle (`_redis`, None until created), the error counter
      (`_connection_error_count`) and how many clients have been created. */
  datatype Conn = Conn(client: Option<nat>, errors: nat, created: nat)

  function Disconnected(): Conn {
    Conn(None, 0, 0)
  }

  /** `_get_client`: reuses the client, or creates client number
      `created + 1` and resets the error counter. */
  function GetClient(c: Conn): (r: Conn)
    ensures r.client.Some?
    ensures c.client.Some? ==> r == c
    ensures c.client.None? ==> r == Conn(Some(c.created + 1), 0, c.created + 1)
  {
    if c.client.Some? then c else Conn(Some(c.created + 1), 0, c.created + 1)
  }

  /** The `except` branch of one attempt: count the failure; past the
      threshold, drop the client and reset the counter. */
  function RecordFailure(c: Conn): (r: Conn)
    requires c.client.Some?
    ensures r.created == c.created
    ensures c.errors + 1 <= ErrorThreshold ==> r == c.(errors := c.errors + 1)
    ensures c.errors + 1 > ErrorThreshold ==> r.client.None? && r.errors == 0
  {
    var counted := c.(errors := c.errors + 1);
    if counted.errors > ErrorThreshold then Conn(None, 0, c.created) else counted
  }

  /** Everything one call of `_execute_with_retry` produced. */
  datatype Run<T> = Run(result: Option<T>, conn: Conn, rest: seq<Outcome<T>>, sleepsMs: seq<nat>)

  function Head<T>(script: seq<Outcome<T>>): Outcome<T> {
    if |script| == 0 then Raise else script[0]
  }

  function Tail<T>(script: seq<Outcome<T>>): seq<Outcome<T>> {
    if |script| == 0 then [] else script[1..]
  }

  /** Backoff before attempt `attempt + 1`. */
  function BackoffMs(attempt: nat): nat {
    500 * (attempt + 1)
  }

  /** Attempts `attempt`, `attempt + 1`, ... `MaxRetries - 1` of one call. */
  function RetryFrom<T>(c: Conn, script: seq<Outcome<T>>, attempt: nat): (r: Run<T>)
    requires attempt <= MaxRetries
    ensures r.conn.created >= c.created
    ensures |r.sleepsMs| <= MaxRetries - attempt
    decreases MaxRetries - attempt
  {
    if attempt == MaxRetries then Run(None, c, script, [])
    else
      var live := GetClient(c);
      match Head(script)
      case Reply(v) => Run(Some(v), live, Tail(script), [])
      case Raise =>
        var failed := RecordFailure(live);
        var next := RetryFrom(failed, Tail(script), attempt + 1);
        if attempt < MaxRetries - 1 then next.(sleepsMs := [BackoffMs(attempt)] + next.sleepsMs)
        else next
  }

  /** `_execute_with_retry` as a function: None when every attempt raised. */
  function Execute<T>(c: Conn, script: seq<Outcome<T>>): Run<T> {
    RetryFrom(c, script, 0)
  }

  /** The whole run, given the sleeps of the attempts already made and the
      run of the attempts still to come (the last attempt sleeps not). */
  function Prefixed<T>(sleeps: seq<nat>, attempt: nat, tail: Run<T>): Run<T>
    requires |sleeps| == attempt <= MaxRetries
  {
    if attempt < MaxRetries then tail.(sleepsMs := sleeps + tail.sleepsMs)
    else tail.(sleepsMs := sleeps[..MaxRetries - 1] + tail.sleepsMs)
  }

  /** One failed attempt moves its backoff from the run still to come into
      the sleeps already made. */
  lemma RetryStep<T>(conn: Conn, rest: seq<Outcome<T>>, attempt: nat, sleeps: seq<nat>)
    requires |sleeps| == attempt < MaxRetries && Head(rest).Raise?
    ensures Prefixed(sleeps, attempt, RetryFrom(conn, rest, attempt)) ==
            Prefixed(sleeps + [BackoffMs(attempt)], attempt + 1,
                     RetryFrom(RecordFailure(GetClient(conn)), Tail(rest), attempt + 1))
  {
    var next := RetryFrom(RecordFailure(GetClient(conn)), Tail(rest), attempt + 1);
    var more := sleeps + [BackoffMs(attempt)];
    if attempt < MaxRetries - 1 {
      assert sleeps + ([BackoffMs(attempt)] + next.sleepsMs) == more + next.sleepsMs;
    } else {
      assert more[..MaxRetries - 1] == sleeps;
    }
  }

  /** `_execute_with_retry` as the loop the source writes; it computes the
      same run as `Execute`. */
  method ExecuteWithRetry<T>(c: Conn, script: seq<Outcome<T>>) returns (run: Run<T>)
    ensures run == Execute(c, script)
  {
    var conn := c;
    var rest := script;
    var sleeps: seq<nat> := [];
    var attempt: nat := 0;
    assert [] + Execute(c, script).sleepsMs == Execute(c, script).sleepsMs;
    while attempt < MaxRetries
      invariant |sleeps| == attempt <= MaxRetries
      invariant Execute(c, script) == Prefixed(sleeps, attempt, RetryFrom(conn, rest, attempt))
      decreases MaxRetries - attempt
    {
      var outcome := Head(rest);
      if outcome.Reply? {
        assert sleeps + [] == sleeps;
        return Run(Some(outcome.value), GetClient(conn), Tail(rest), sleeps);
      }
      RetryStep(conn, rest, attempt, sleeps);
      conn := RecordFailure(GetClient(conn));
      rest := Tail(rest);
      sleeps := sleeps + [BackoffMs(attempt)];
      attempt := attempt + 1;
    }
    assert sleeps[..MaxRetries - 1] + [] == sleeps[..MaxRetries - 1];
    return Run(None, conn, rest, sleeps[..MaxRetries - 1]);
  }

  // -------------------------------------------------------------------------
  // Retry properties

  /** The index of the first reply among the first `MaxRetries` outcomes. */
  predicate FirstReplyAt<T>(script: seq<Outcome<T>>, i: nat) {
    i < MaxRetries && i < |script| && script[i].Reply? &&
    forall j :: 0 <= j < i ==> script[j].Raise?
  }

  /** No reply among the first `MaxRetries` outcomes. */
  predicate NoReplyInBudget<T>(script: seq<Outcome<T>>) {
    forall j :: 0 <= j < MaxRetries && j < |script| ==> script[j].Raise?
  }

  lemma {:induction false} RetryFromFirstReply<T>(c: Conn, script: seq<Outcome<T>>, attempt: nat, i: nat)
    requires attempt <= i && FirstReplyAt(script, i)
    ensures var r := RetryFrom(c, script[attempt..], attempt);
            && r.result == Some(script[i].value)
            && r.rest == script[i + 1..]
            && |r.sleepsMs| == i - attempt
            && forall j :: 0 <= j < i - attempt ==> r.sleepsMs[j] == BackoffMs(attempt + j)
    decreases MaxRetries - attempt
  {
    var s := script[attempt..];
    assert Head(s) == script[attempt];
    if attempt < i {
      assert Tail(s) == script[attempt + 1..];
      var live := GetClient(c);
      RetryFromFirstReply(RecordFailure(live), script, attempt + 1, i);
    }
  }

  /** The first reply within three attempts is the result; it comes after
      one backoff per failed attempt, 0.5 s, 1 s, ... in turn. */
  lemma FirstReplyWins<T>(c: Conn, script: seq<Outcome<T>>, i: nat)
    requires FirstReplyAt(script, i)
    ensures var r := Execute(c, script);
            && r.result == Some(script[i].value)
            && r.rest == script[i + 1..]
            && |r.sleepsMs| == i
            && forall j :: 0 <= j < i ==> r.sleepsMs[j] == 500 * (j + 1)
  {
    assert script[0..] == script;
    RetryFromFirstReply(c, script, 0, i);
  }

  lemma {:induction false} RetryFromAllRaise<T>(c: Conn, script: seq<Outcome<T>>, attempt: nat)
    requires attempt <= MaxRetries && NoReplyInBudget(script)
    ensures var r := RetryFrom(c, if attempt <= |script| then script[attempt..] else [], attempt);
            && r.result.None?
            && r.sleepsMs == (if attempt == 0 then [500, 1000] else if attempt == 1 then [1000] else [])
    decreases MaxRetries - attempt
  {
    var s := if attempt <= |script| then script[attempt..] else [];
    if attempt < MaxRetries {
      assert Head(s).Raise?;
      assert Tail(s) == if attempt + 1 <= |script| then script[attempt + 1..] else [];
      RetryFromAllRaise(RecordFailure(GetClient(c)), script, attempt + 1);
    }
  }

  /** When all three attempts raise, the call gives up with None after
      sleeping 0.5 s and 1 s (1.5 s in all) and not after the last attempt. */
  lemma AllAttemptsRaise<T>(c: Conn, script: seq<Outcome<T>>)
    requires NoReplyInBudget(script)
    ensures Execute(c, script).result.None?
    ensures Execute(c, script).sleepsMs == [500, 1000]
  {
    assert script[0..] == script;
    RetryFromAllRaise(c, script, 0);
  }

  /** A successful attempt leaves the error counter as it found it: only
      creating or dropping a client resets it. */
  lemma ReplyDoesNotResetErrors<T>(c: Conn, script: seq<Outcome<T>>)
    requires c.client.Some? && |script| > 0 && script[0].Reply?
    ensures Execute(c, script).conn == c
  {
  }

  /** Six failures from a fresh connection: the first call fails three
      times (counter 3), the second fails three more and drops the client on
      the sixth (counter 6 > 5), so the third call runs on client number 2. */
  lemma SixFailuresReconnect<T>(v: T)
    ensures var script := [Raise, Raise, Raise, Raise, Raise, Raise, Reply(v)];
            var first := Execute(Disconnected(), script);
            var second := Execute(first.conn, first.rest);
            var third := Execute(second.conn, second.rest);
            && first.result.None? && first.conn == Conn(Some(1), 3, 1)
            && second.result.None? && second.conn == Conn(None, 0, 1)
            && third.result == Some(v) && third.conn == Conn(Some(2), 0, 2)
  {
  }

  /** Failures accumulate across calls: a call whose attempts all raise
      adds three to a counter that stays within the threshold. */
  lemma FailuresAccumulate<T>(c: Conn, script: seq<Outcome<T>>)
    requires c.client.Some? && c.errors + MaxRetries <= ErrorThreshold
    requires NoReplyInBudget(script)
    ensures Execute(c, script).conn == c.(errors := c.errors + MaxRetries)
  {
  }

  // -------------------------------------------------------------------------
  // Commands and result mapping

  /** The primitive `set` issues: SETEX with a truthy ttl, plain SET otherwise. */
  datatype SetCommand = SetEx(key: string, seconds: int, value: Bytes) | SetPlain(key: string, value: Bytes)

  function SetCommandFor(key: string, value: Bytes, ttl: Option<int>): (r: SetCommand)
    ensures r.key == key && r.value == value
    ensures r.SetEx? <==> ttl.Some? && ttl.value != 0
    ensures r.SetEx? ==> r.seconds == ttl.value
  {
    if ttl.Some? && ttl.value != 0 then SetEx(key, ttl.value, value) else SetPlain(key, value)
  }

  /** `get`: the reply of GET (None for a missing key), or None after
      exhaustion. */
  function RemoteGet(c: Conn, script: seq<Outcome<Option<Bytes>>>): (r: (Run<Option<Bytes>>, Option<Bytes>))
    ensures r.0 == Execute(c, script)
    ensures r.1.Some? <==> r.0.result.Some? && r.0.result.value.Some?
  {
    var run := Execute(c, script);
    (run, if run.result.Some? then run.result.value else None)
  }

  /** `set`: True exactly when the command ran. */
  function RemoteSet(c: Conn, script: seq<Outcome<()>>): (r: (Run<()>, bool))
    ensures r.0 == Execute(c, script)
    ensures r.1 <==> r.0.result.Some?
  {
    var run := Execute(c, script);
    (run, run.result.Some?)
  }

  /** `delete`: True whenever DEL ran, whatever count it replied. */
  function RemoteDelete(c: Conn, script: seq<Outcome<int>>): (r: (Run<int>, bool))
    ensures r.0 == Execute(c, script)
    ensures r.1 <==> r.0.result.Some?
  {
    var run := Execute(c, script);
    (run, run.result.Some?)
  }

  /** `exists`: True when EXISTS ran and counted at least one key. */
  function RemoteExists(c: Conn, script: seq<Outcome<int>>): (r: (Run<int>, bool))
    ensures r.0 == Execute(c, script)
    ensures r.1 <==> r.0.result.Some? && r.0.result.value > 0
  {
    var run := Execute(c, script);
    (run, run.result.Some? && run.result.value > 0)
  }

    /** A key in a KEYS reply: bytes (what a client with
      `decode_responses=False` returns) or already a `str`. */
  datatype ServerKey = RawKey(bytes: Bytes) | TextKey(text: string)

  /** `k.decode('utf-8') if isinstance(k, bytes) else k`, with the UTF-8
      decoder a parameter that answers None where Python raises
      `UnicodeDecodeError`. */
  function DecodeKey(k: ServerKey, utf8: Bytes -> Option<string>): Option<string> {
    match k
    case RawKey(b) => utf8(b)
    case TextKey(t) => Some(t)
  }

  /** The list comprehension over the reply: the first key that does not
      decode raises, and the exception leaves `keys`. */
  function DecodeKeys(ks: seq<ServerKey>, utf8: Bytes -> Option<string>): (r: Result<seq<string>>)
    ensures r.Ok? <==> forall i :: 0 <= i < |ks| ==> DecodeKey(ks[i], utf8).Some?
    ensures r.Ok? ==> |r.value| == |ks| &&
                      forall i :: 0 <= i < |ks| ==> DecodeKey(ks[i], utf8) == Some(r.value[i])
  {
    if |ks| == 0 then Ok([])
    else
      match DecodeKey(ks[0], utf8)
      case None => Err("UnicodeDecodeError")
      case Some(k) =>
        var rest := DecodeKeys(ks[1..], utf8);
        assert forall i :: 1 <= i < |ks| ==> ks[i] == ks[1..][i - 1];
        if rest.Err? then Err(rest.error) else Ok([k] + rest.value)
  }

  /** Keys the client already returns as `str` pass through unchanged. */
  lemma TextKeysPassThrough(ts: seq<string>, utf8: Bytes -> Option<string>)
    ensures DecodeKeys(seq(|ts|, i requires 0 <= i < |ts| => TextKey(ts[i])), utf8) == Ok(ts)
  {
    var ks := seq(|ts|, i requires 0 <= i < |ts| => TextKey(ts[i]));
    assert forall i :: 0 <= i < |ks| ==> DecodeKey(ks[i], utf8) == Some(ts[i]);
    var r := DecodeKeys(ks, utf8);
    assert r.Ok?;
    assert r.value == ts;
  }

  /** `keys`: the decoded KEYS reply when the command ran, the empty list
      when every attempt failed; a key that is not UTF-8 raises. */
  function RemoteKeys(c: Conn, script: seq<Outcome<seq<ServerKey>>>, utf8: Bytes -> Option<string>)
    : (r: (Run<seq<ServerKey>>, Result<seq<string>>))
    ensures r.0 == Execute(c, script)
    ensures r.0.result.None? ==> r.1 == Ok([])
    ensures r.0.result.Some? ==>
              var reply := r.0.result.value;
              && (r.1.Ok? <==> forall i :: 0 <= i < |reply| ==> DecodeKey(reply[i], utf8).Some?)
              && (r.1.Ok? ==> |r.1.value| == |reply| &&
                              forall i :: 0 <= i < |reply| ==> DecodeKey(reply[i], utf8) == Some(r.1.value[i]))
  {
    var run := Execute(c, script);
    (run, if run.result.Some? then DecodeKeys(run.result.value, utf8) else Ok([]))
  }

  /** When the server raises on every attempt, each command degrades to its
      failure value instead of raising: None, False, False, False, []. */
  lemma ExhaustionDegrades(c: Conn,
                           gets: seq<Outcome<Option<Bytes>>>, sets: seq<Outcome<()>>,
                           dels: seq<Outcome<int>>, exs: seq<Outcome<int>>,
                           keys: seq<Outcome<seq<ServerKey>>>, utf8: Bytes -> Option<string>)
    requires NoReplyInBudget(gets) && NoReplyInBudget(sets) && NoReplyInBudget(dels)
    requires NoReplyInBudget(exs) && NoReplyInBudget(keys)
    ensures RemoteGet(c, gets).1.None?
    ensures !RemoteSet(c, sets).1
    ensures !RemoteDelete(c, dels).1
    ensures !RemoteExists(c, exs).1
    ensures RemoteKeys(c, keys, utf8).1 == Ok([])
  {
    AllAttemptsRaise(c, gets);
    AllAttemptsRaise(c, sets);
    AllAttemptsRaise(c, dels);
    AllAttemptsRaise(c, exs);
    AllAttemptsRaise(c, keys);
  }
}
