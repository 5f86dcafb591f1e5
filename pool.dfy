/**
  A model of the list-backed object pool `listPool` of the gopool package.

  The pool keeps its idle connections in a FIFO list. `NewListPool` validates a
  configuration and pre-creates `initCount` connections with the caller's
  factory; `Get` takes the front entry, `Put` appends at the back, `Len` reports
  the length, `Close` destroys one connection and `Release` drops the list and
  both callbacks.

  Go's `interface{}` values are modelled by `Option<T>`, where `None` is `nil`.
  The two caller-supplied callbacks are modelled as objects that remember how
  often, and with what, they were called.
 */
module GoPool {

  /** An `interface{}` value: `None` is Go's `nil`. */
  datatype Option<T> = None | Some(value: T)

  /** The distinct error messages the pool returns. */
  datatype Error =
    | InvalidConfigParam   // "invalid config param"
    | MethodInvalid        // "method invalid"
    | InitError            // "init error"
    | EmptyList            // "empty list"
    | ConnError            // "conn error"
    | CloseError           // "close error"

  datatype Result<R> = Ok(value: R) | Err(error: Error)

  /** The `*list.Element` that `Get` hands back: a wrapper around the stored value. */
  datatype Element<T> = Element(value: Option<T>)

  /** What one call of the factory yields: a (possibly nil) connection, or a non-nil error. */
  datatype Made<T> = Made(conn: Option<T>) | Failed

  /**
    The caller's factory `func() (interface{}, error)`. Its answers may change from
    call to call, so they are given by the index of the call.
   */
  class Factory<T> {
    const outcome: nat -> Made<T>
    var calls: nat

    constructor (outcome: nat -> Made<T>)
      ensures this.outcome == outcome && calls == 0
    {
      this.outcome := outcome;
      calls := 0;
    }

    method Call() returns (m: Made<T>)
      modifies this
      ensures calls == old(calls) + 1
      ensures m == outcome(old(calls))
    {
      m := outcome(calls);
      calls := calls + 1;
    }
  }

  /**
    The caller's destructor `func(interface{}) error`; `destroyed` logs its calls.
    Whether a call fails may depend on the history, so it is given by the index
    of the call and the value passed.
   */
  class Destructor<T> {
    const fails: (nat, Option<T>) -> bool
    var destroyed: seq<Option<T>>

    constructor (fails: (nat, Option<T>) -> bool)
      ensures this.fails == fails && destroyed == []
    {
      this.fails := fails;
      destroyed := [];
    }

    method Call(conn: Option<T>) returns (failed: bool)
      modifies this
      ensures destroyed == old(destroyed) + [conn]
      ensures failed == fails(|old(destroyed)|, conn)
    {
      failed := fails(|destroyed|, conn);
      destroyed := destroyed + [conn];
    }
  }

  /** The configuration; `Timeout` is not part of this model. */
  datatype Config<T> = Config(initCount: int, maxCount: int, factory: Factory?<T>, close: Destructor?<T>)

  // ---------------------------------------------------------------------------
  // Validation of the configuration

  /** The bounds check exactly as written: its middle disjunct makes it hold always. */
  predicate BoundsRejectedAsWritten(initCount: int, maxCount: int)
  {
    initCount < 0 || maxCount >= 0 || initCount > maxCount
  }

  /** The bounds check as evidently intended: only `maxCount < 0` is flipped. */
  predicate BoundsRejected(initCount: int, maxCount: int)
  {
    initCount < 0 || maxCount < 0 || initCount > maxCount
  }

  /** The as-written check holds of every pair of counts. */
  lemma BoundsRejectedAsWrittenAlways(initCount: int, maxCount: int)
    ensures BoundsRejectedAsWritten(initCount, maxCount)
  {
  }

  /**
    Validation as written (bounds first, then the callbacks). Every configuration
    is rejected with "invalid config param", whatever the callbacks are.
   */
  function ValidateAsWritten<T>(c: Config<T>): (r: Option<Error>)
    ensures r == Some(InvalidConfigParam)
  {
    if BoundsRejectedAsWritten(c.initCount, c.maxCount) then Some(InvalidConfigParam)
    else if c.factory == null || c.close == null then Some(MethodInvalid)
    else None
  }

  /**
    A configuration with 0 <= 3 <= 5 and both callbacks set: the check as
    written refuses it and the corrected check accepts it.
   */
  lemma ValidConfigRejectedAsWritten<T>(f: Factory<T>, d: Destructor<T>)
    ensures ValidateAsWritten(Config(3, 5, f, d)) == Some(InvalidConfigParam)
    ensures Validate(Config(3, 5, f, d)) == None
  {
  }

  /**
    Validation with the corrected bounds check, in the source's order: bounds
    errors win over missing callbacks.
   */
  function Validate<T>(c: Config<T>): (r: Option<Error>)
    ensures r == None <==> 0 <= c.initCount <= c.maxCount && c.factory != null && c.close != null
    ensures r == Some(InvalidConfigParam) <==> !(0 <= c.initCount <= c.maxCount)
    ensures r == Some(MethodInvalid) <==>
              0 <= c.initCount <= c.maxCount && (c.factory == null || c.close == null)
  {
    if BoundsRejected(c.initCount, c.maxCount) then Some(InvalidConfigParam)
    else if c.factory == null || c.close == null then Some(MethodInvalid)
    else None
  }

  // ---------------------------------------------------------------------------
  // The idle list: one Get, one Put, and runs of them

  datatype Taken<T> = Taken(result: Result<Element<T>>, rest: seq<Option<T>>)

  /**
    What one `Get` does to the idle list: an empty list is an error and stays as
    it is; otherwise the front entry is removed and handed back in its list
    element, and the others keep their order.
   */
  function GetFrom<T>(idle: seq<Option<T>>): (t: Taken<T>)
    ensures idle == [] ==> t.result == Err(EmptyList) && t.rest == idle
    ensures idle != [] ==> t.result == Ok(Element(idle[0])) && [idle[0]] + t.rest == idle
  {
    if |idle| <= 0 then Taken(Err(EmptyList), idle)
    else Taken(Ok(Element(idle[0])), idle[1..])
  }

  datatype Pushed<T> = Pushed(err: Option<Error>, idle: seq<Option<T>>)

  /**
    What one `Put` does to the idle list: `nil` is refused and nothing changes;
    any other value goes to the back, with every earlier entry left in place.
   */
  function PutInto<T>(idle: seq<Option<T>>, conn: Option<T>): (p: Pushed<T>)
    ensures conn == None ==> p.err == Some(ConnError) && p.idle == idle
    ensures conn != None ==> p.err == None && |p.idle| == |idle| + 1
    ensures conn != None ==> p.idle[..|idle|] == idle && p.idle[|idle|] == conn
  {
    if conn.None? then Pushed(Some(ConnError), idle)
    else Pushed(None, idle + [conn])
  }

  datatype Run<T, R> = Run(results: seq<R>, idle: seq<Option<T>>)

  /** `k` successive `Get` calls: what each returns, and the idle list afterwards. */
  function GetMany<T>(idle: seq<Option<T>>, k: nat): (run: Run<T, Result<Element<T>>>)
    decreases k
  {
    if k == 0 then Run([], idle)
    else
      var t := GetFrom(idle);
      var run := GetMany(t.rest, k - 1);
      Run([t.result] + run.results, run.idle)
  }

  /** Successive `Put` calls of `conns`: what each returns, and the idle list afterwards. */
  function PutMany<T>(idle: seq<Option<T>>, conns: seq<Option<T>>): (run: Run<T, Option<Error>>)
    decreases |conns|
  {
    if conns == [] then Run([], idle)
    else
      var p := PutInto(idle, conns[0]);
      var run := PutMany(p.idle, conns[1..]);
      Run([p.err] + run.results, run.idle)
  }

  /** `k` Gets on a list holding at least `k` entries hand back its first `k`, front first. */
  lemma {:induction false} GetManyTakesFront<T>(idle: seq<Option<T>>, k: nat)
    requires k <= |idle|
    ensures |GetMany(idle, k).results| == k
    ensures forall i :: 0 <= i < k ==> GetMany(idle, k).results[i] == Ok(Element(idle[i]))
    ensures GetMany(idle, k).idle == idle[k..]
  {
    if k > 0 {
      GetManyTakesFront(idle[1..], k - 1);
      assert idle[1..][k - 1..] == idle[k..];
    }
  }

  /** Putting non-nil values succeeds every time and appends them in order. */
  lemma {:induction false} PutManyAppends<T>(idle: seq<Option<T>>, conns: seq<Option<T>>)
    requires forall i :: 0 <= i < |conns| ==> conns[i] != None
    ensures PutMany(idle, conns).idle == idle + conns
    ensures |PutMany(idle, conns).results| == |conns|
    ensures forall i :: 0 <= i < |conns| ==> PutMany(idle, conns).results[i] == None
    decreases |conns|
  {
    if conns != [] {
      PutManyAppends(idle + [conns[0]], conns[1..]);
      assert (idle + [conns[0]]) + conns[1..] == idle + conns;
    }
  }

  /**
    FIFO: after non-nil values are put back, Gets return the entries that were
    already idle and then the put values, each in the order it went in; one more
    Get finds the list empty.
   */
  lemma PutThenGetIsFifo<T>(idle: seq<Option<T>>, conns: seq<Option<T>>)
    requires forall i :: 0 <= i < |conns| ==> conns[i] != None
    ensures var run := GetMany(PutMany(idle, conns).idle, |idle| + |conns|);
            && |run.results| == |idle| + |conns|
            && (forall i :: 0 <= i < |idle| ==> run.results[i] == Ok(Element(idle[i])))
            && (forall i :: 0 <= i < |conns| ==> run.results[|idle| + i] == Ok(Element(conns[i])))
            && run.idle == []
            && GetFrom(run.idle).result == Err(EmptyList)
  {
    PutManyAppends(idle, conns);
    var all := idle + conns;
    GetManyTakesFront(all, |all|);
    forall i | 0 <= i < |conns|
      ensures GetMany(all, |all|).results[|idle| + i] == Ok(Element(conns[i]))
    {
      assert all[|idle| + i] == conns[i];
    }
  }

  /** One call on the idle list: a `Get`, or a `Put` of a (possibly nil) value. */
  datatype Op<T> = GetOp | PutOp(conn: Option<T>)

  /**
    Any interleaving of Gets and Puts: the values unwrapped from the elements
    that successful Gets hand back, in order, and the idle list afterwards.
    Gets on an empty list and Puts of nil contribute nothing.
   */
  function Apply<T>(idle: seq<Option<T>>, ops: seq<Op<T>>): (run: Run<T, Option<T>>)
    decreases |ops|
  {
    if ops == [] then Run([], idle)
    else match ops[0]
      case GetOp =>
        var t := GetFrom(idle);
        var run := Apply(t.rest, ops[1..]);
        if t.result.Ok? then Run([t.result.value.value] + run.results, run.idle) else run
      case PutOp(conn) =>
        Apply(PutInto(idle, conn).idle, ops[1..])
  }

  /** The non-nil values put by `ops`, in the order they are put. */
  function NonNilPuts<T>(ops: seq<Op<T>>): (puts: seq<Option<T>>)
    decreases |ops|
  {
    if ops == [] then []
    else match ops[0]
      case PutOp(conn) => if conn != None then [conn] + NonNilPuts(ops[1..]) else NonNilPuts(ops[1..])
      case GetOp => NonNilPuts(ops[1..])
  }

  /**
    FIFO for every interleaving: what the Gets take out, followed by what is
    left idle, is the starting idle list followed by the non-nil values put,
    so entries leave in exactly the order they arrived and none is lost.
   */
  lemma {:induction false} ApplyIsFifo<T>(idle: seq<Option<T>>, ops: seq<Op<T>>)
    ensures Apply(idle, ops).results + Apply(idle, ops).idle == idle + NonNilPuts(ops)
    decreases |ops|
  {
    if ops != [] {
      var rest := ops[1..];
      match ops[0]
      case GetOp =>
        var t := GetFrom(idle);
        ApplyIsFifo(t.rest, rest);
        var run := Apply(t.rest, rest);
        if idle != [] {
          calc {
            Apply(idle, ops).results + Apply(idle, ops).idle;
            ([idle[0]] + run.results) + run.idle;
            [idle[0]] + (run.results + run.idle);
            [idle[0]] + (t.rest + NonNilPuts(rest));
            ([idle[0]] + t.rest) + NonNilPuts(rest);
          }
        } else {
          assert t.rest == idle;
        }
      case PutOp(conn) =>
        var after := PutInto(idle, conn).idle;
        ApplyIsFifo(after, rest);
        if conn != None {
          assert after == idle + [conn];
          assert (idle + [conn]) + NonNilPuts(rest) == idle + ([conn] + NonNilPuts(rest));
        }
    }
  }

  // ---------------------------------------------------------------------------
  // Close as written

  /** How a call of the as-written `Close` ends. */
  datatype CloseOutcome = Returned(err: Option<Error>) | StackOverflow

  /**
    `Close` exactly as written: for a non-nil value it calls itself rather than
    the stored destructor. Go gives each goroutine a bounded stack, here
    `stack` frames; a call with no frame left is the fatal stack overflow.
    The removal of a freshly built element that follows would be a no-op.
   */
  function CloseAsWritten<T>(conn: Option<T>, stack: nat): (o: CloseOutcome)
    ensures o == Returned(Some(ConnError)) <==> conn == None
    decreases stack
  {
    if conn.None? then Returned(Some(ConnError))
    else if stack == 0 then StackOverflow
    else
      match CloseAsWritten(conn, stack - 1)
      case StackOverflow => StackOverflow
      case Returned(err) => if err.Some? then Returned(Some(CloseError)) else Returned(None)
  }

  /**
    However deep the stack, the as-written `Close` of a non-nil value never
    returns: it never reaches the destructor nor the removal.
   */
  lemma {:induction false} CloseAsWrittenNeverReturns<T>(conn: Option<T>, stack: nat)
    requires conn != None
    ensures CloseAsWritten(conn, stack) == StackOverflow
  {
    if stack > 0 {
      CloseAsWrittenNeverReturns(conn, stack - 1);
    }
  }

  /** `Close(nil)` as written fails with "conn error" before recursing. */
  lemma CloseAsWrittenNil<T>(stack: nat)
    ensures CloseAsWritten<T>(None, stack) == Returned(Some(ConnError))
  {
  }

  // ---------------------------------------------------------------------------
  // The pool

  class ListPool<T> {
    /** The idle list `conns`, front first. */
    var idle: seq<Option<T>>
    /** True once `Release` has set `conns` to nil. */
    var released: bool
    var factory: Factory?<T>
    var close: Destructor?<T>
    /** The idle entries `Release` let go of without passing them to the destructor. */
    ghost var dropped: seq<Option<T>>

    ghost predicate Valid()
      reads this
    {
      && (released ==> idle == [] && factory == null && close == null)
      && (!released ==> factory != null && close != null)
    }

    /** The struct literal built once the configuration is accepted: an empty list and both callbacks. */
    constructor (factory: Factory<T>, close: Destructor<T>)
      ensures Valid() && !released
      ensures idle == [] && dropped == []
      ensures this.factory == factory && this.close == close
    {
      idle := [];
      released := false;
      this.factory := factory;
      this.close := close;
      dropped := [];
    }

    /** `getall`: the list itself, or nil once released. */
    method GetAll() returns (all: Option<seq<Option<T>>>)
      requires Valid()
      ensures all == None <==> released
      ensures all != None ==> all.value == idle
    {
      all := if released then None else Some(idle);
    }

    /** Takes the front entry, returned in its list element; "empty list" when there is none. */
    method Get() returns (r: Result<Element<T>>)
      requires Valid() && !released
      modifies this`idle
      ensures Valid()
      ensures Taken(r, idle) == GetFrom(old(idle))
    {
      if |idle| <= 0 {
        return Err(EmptyList);
      }
      var front := idle[0];
      idle := idle[1..];
      r := Ok(Element(front));
    }

    /** Appends a non-nil value at the back; refuses nil with "conn error", even after `Release`. */
    method Put(conn: Option<T>) returns (err: Option<Error>)
      requires Valid()
      requires conn != None ==> !released
      modifies this`idle
      ensures Valid()
      ensures Pushed(err, idle) == PutInto(old(idle), conn)
    {
      if conn.None? {
        return Some(ConnError);
      }
      idle := idle + [conn];
      err := None;
    }

    /**
      `Close` with the stored destructor called in place of the self-call: nil
      is refused; otherwise the destructor runs once on `conn` and its failure
      becomes "close error". The idle list is never touched, as the element
      handed to the list's removal belongs to no list.
     */
    method Close(conn: Option<T>) returns (err: Option<Error>)
      requires Valid()
      requires conn != None ==> !released
      modifies close
      ensures conn == None ==> err == Some(ConnError)
      ensures conn == None && close != null ==> close.destroyed == old(close.destroyed)
      ensures conn != None ==> close.destroyed == old(close.destroyed) + [conn]
      ensures conn != None ==> (err == Some(CloseError) <==> close.fails(|old(close.destroyed)|, conn))
      ensures conn != None ==> (err == None <==> !close.fails(|old(close.destroyed)|, conn))
    {
      if conn.None? {
        return Some(ConnError);
      }
      var failed := close.Call(conn);
      if failed {
        return Some(CloseError);
      }
      err := None;
    }

    /** The number of idle entries. */
    method Len() returns (n: int)
      requires Valid() && !released
      ensures n == |idle|
    {
      n := |idle|;
    }

    /**
      Drops the idle list and both callbacks. No idle entry reaches the
      destructor; a second call changes nothing.
     */
    method Release()
      requires Valid()
      modifies this
      ensures Valid() && released
      ensures idle == [] && factory == null && close == null
      ensures dropped == old(dropped) + old(idle)
      ensures old(released) ==> unchanged(this)
      ensures old(close) != null ==> old(close).destroyed == old(close.destroyed)
    {
      assert released ==> dropped + idle == dropped;
      dropped := dropped + idle;
      idle := [];
      factory := null;
      close := null;
      released := true;
    }
  }

  /**
    `newListPool` with the corrected bounds check. After validation it calls the
    factory up to `initCount` times, appending each connection at the back; on
    the first factory error it releases the half-built pool and fails with
    "init error", without destroying the connections already made.
   */
  method NewListPool<T>(c: Config<T>) returns (r: Result<ListPool<T>>)
    modifies c.factory
    ensures Validate(c) != None ==> r == Err(Validate(c).value)
    ensures Validate(c) != None && c.factory != null ==> c.factory.calls == old(c.factory.calls)
    ensures Validate(c) == None ==>
              && old(c.factory.calls) <= c.factory.calls <= old(c.factory.calls) + c.initCount
              && (r.Ok? <==> forall j :: old(c.factory.calls) <= j < old(c.factory.calls) + c.initCount ==>
                                          c.factory.outcome(j).Made?)
    ensures Validate(c) == None && r.Ok? ==>
              && fresh(r.value) && r.value.Valid() && !r.value.released
              && r.value.factory == c.factory && r.value.close == c.close
              && c.factory.calls == old(c.factory.calls) + c.initCount
              && |r.value.idle| == c.initCount
              && (forall i :: 0 <= i < c.initCount ==>
                                r.value.idle[i] == c.factory.outcome(old(c.factory.calls) + i).conn)
    ensures Validate(c) == None && r.Err? ==>
              && r.error == InitError
              && old(c.factory.calls) < c.factory.calls
              && c.factory.outcome(c.factory.calls - 1).Failed?
              && (forall j :: old(c.factory.calls) <= j < c.factory.calls - 1 ==> c.factory.outcome(j).Made?)
    ensures c.close != null ==> c.close.destroyed == old(c.close.destroyed)
  {
    var invalid := Validate(c);
    if invalid.Some? {
      return Err(invalid.value);
    }
    var l := new ListPool(c.factory, c.close);
    ghost var start := c.factory.calls;
    var i := 0;
    while i < c.initCount
      invariant 0 <= i <= c.initCount
      invariant fresh(l) && l.Valid() && !l.released
      invariant l.factory == c.factory && l.close == c.close
      invariant c.factory.calls == start + i
      invariant forall j :: start <= j < start + i ==> c.factory.outcome(j).Made?
      invariant |l.idle| == i
      invariant forall j :: 0 <= j < i ==> l.idle[j] == c.factory.outcome(start + j).conn
    {
      var m := l.factory.Call();
      if m.Failed? {
        l.Release();
        return Err(InitError);
      }
      l.idle := l.idle + [m.conn];
      i := i + 1;
    }
    return Ok(l);
  }
}
