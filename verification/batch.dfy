/** The row-level control flow every batch window shares: reading the
    `retry` cell, the attempt loop that stops at the first HTTP 200, and the
    consumer of finished rows, taken in the order they complete. */
module Batch {
  import opened Prelude
  import opened Text
  import opened Digits
  import opened Json

  // ---------------------------------------------------------------------
  // int(row.get("retry", 0))

  /** A decimal text with an optional sign and ASCII digits, as `int(text)`
      accepts it once stripped. */
  function ParseIntText(text: string): (r: Option<int>)
    ensures r.Some? && AllDigits(text) ==> r.value == ParseDigits(text)
    ensures AllDigits(text) && |text| > 0 ==> r.Some?
  {
    if |text| > 0 && AllDigits(text) then Some(ParseDigits(text))
    else if |text| > 1 && (text[0] == '+' || text[0] == '-') && AllDigits(text[1..]) then
      var n: int := ParseDigits(text[1..]);
      Some(if text[0] == '-' then -n else n)
    else None
  }

  /** `int(v)`, None where Python raises `ValueError` or `TypeError`: booleans
      count as 0 and 1, floats are truncated toward zero, texts are read as
      signed decimals. */
  function PyInt(v: Value): (r: Option<int>)
    ensures v.Int? ==> r == Some(v.i)
    ensures v.Bool? ==> r == Some(if v.b then 1 else 0)
    ensures v.Null? || v.NaN? || v.List? || v.Dict? ==> r.None?
    ensures v.Float? ==> r.Some? && (v.r >= 0.0 ==> r.value as real <= v.r < r.value as real + 1.0)
  {
    match v
    case Null => None
    case NaN => None
    case Bool(b) => Some(if b then 1 else 0)
    case Int(i) => Some(i)
    case Float(x) => Some(if x >= 0.0 then x.Floor else -((-x).Floor))
    case Str(s) => ParseIntText(Strip(s))
    case List(_) => None
    case Dict(_) => None
  }

  /** `retry_val if retry_val > 1 else 1`, with 0 when the cell cannot be
      read as an integer. */
  function Attempts(retry: Value): (n: int)
    ensures n >= 1
    ensures PyInt(retry).Some? && PyInt(retry).value > 1 ==> n == PyInt(retry).value
    ensures PyInt(retry).None? || PyInt(retry).value <= 1 ==> n == 1
  {
    var r := PyInt(retry).GetOr(0);
    if r > 1 then r else 1
  }

  /** A cell holding `str(n)` asks for `max(n, 1)` attempts. */
  lemma AttemptsOfText(n: nat)
    ensures Attempts(Str(NatToString(n))) == if n > 1 then n else 1
  {
    var s := NatToString(n);
    assert Strip(s) == s by {
      assert !IsSpace(s[0]) && !IsSpace(s[|s| - 1]);
      TrimLeftNoop(s, IsSpace);
      TrimRightNoop(s, IsSpace);
    }
    ParseNatToString(n);
  }

  // ---------------------------------------------------------------------
  // The attempt loop

  /** What `safe_post`/`safe_get` return: the HTTP status (absent on a
      transport error) and the decoded body. */
  datatype Response = Response(status: Option<int>, data: Value)

  predicate Ok(r: Response) { r.status == Some(200) }

  /** The attempt loop: `post(a)` is the response to attempt `a`. Attempts
      run from 1 and stop at the first HTTP 200 or after `total`; the response
      kept is the last one made. */
  method RunAttempts(total: int, post: nat -> Response) returns (resp: Response, used: nat)
    requires total >= 1
    ensures 1 <= used <= total
    ensures resp == post(used)
    ensures forall a :: 1 <= a < used ==> !Ok(post(a))
    ensures Ok(resp) || used == total
  {
    used := 1;
    resp := post(1);
    while !Ok(resp) && used < total
      invariant 1 <= used <= total
      invariant resp == post(used)
      invariant forall a :: 1 <= a < used ==> !Ok(post(a))
      decreases total - used
    {
      used := used + 1;
      resp := post(used);
    }
  }

  /** The attempt that ends the loop, defined independently: the first
      successful attempt, or the last allowed one. */
  function FirstOk(post: nat -> Response, from: nat, total: int): (a: nat)
    requires 1 <= from <= total
    decreases total - from
  {
    if Ok(post(from)) || from == total then from else FirstOk(post, from + 1, total)
  }

  /** The loop ends exactly at `FirstOk`. */
  lemma {:induction false} FirstOkSpec(post: nat -> Response, from: nat, total: int, used: nat)
    requires 1 <= from <= used <= total
    requires forall a :: from <= a < used ==> !Ok(post(a))
    requires Ok(post(used)) || used == total
    ensures FirstOk(post, from, total) == used
    decreases total - from
  {
    if from < used {
      FirstOkSpec(post, from + 1, total, used);
    }
  }

  method RunAttemptsIsFirstOk(total: int, post: nat -> Response) returns (used: nat)
    requires total >= 1
    ensures used == FirstOk(post, 1, total)
  {
    var resp;
    resp, used := RunAttempts(total, post);
    FirstOkSpec(post, 1, total, used);
  }

  /** The attempts of one request body. */
  function Posting(post: (seq<(string, Value)>, nat) -> Response, payload: seq<(string, Value)>): nat -> Response {
    (a: nat) => post(payload, a)
  }

  /** The answer the attempt loop keeps for a request body. */
  function Answer(post: (seq<(string, Value)>, nat) -> Response, payload: seq<(string, Value)>, total: int): Response
    requires total >= 1
  {
    post(payload, FirstOk(Posting(post, payload), 1, total))
  }

  /** The attempt loop on one request body. */
  method Query(post: (seq<(string, Value)>, nat) -> Response, payload: seq<(string, Value)>, total: int)
    returns (resp: Response)
    requires total >= 1
    ensures resp == Answer(post, payload, total)
  {
    var used;
    resp, used := RunAttempts(total, Posting(post, payload));
    FirstOkSpec(Posting(post, payload), 1, total, used);
  }

  // ---------------------------------------------------------------------
  // The consumer loop of `_worker_excel`

  /** How a row task finished: it raised, or it returned a value. */
  datatype Finished<T> = Raised | Returned(value: T)

  /** The values returned by the futures, in completion order. */
  function ReturnedValues<T>(fs: seq<Finished<T>>): (r: seq<T>)
    ensures |r| <= |fs|
    decreases |fs|
  {
    if |fs| == 0 then []
    else
      var n := |fs| - 1;
      ReturnedValues(fs[..n]) + (if fs[n].Returned? then [fs[n].value] else [])
  }

  /** How many tasks are consumed before the abort check fires; `aborted(k)`
      is the state of the abort flag when the `k`-th task completes. */
  function Consumed(aborted: nat -> bool, n: nat): (k: nat)
    ensures k <= n
    ensures forall j :: 1 <= j <= k ==> !aborted(j)
    ensures k < n ==> aborted(k + 1)
    decreases n
  {
    if n == 0 then 0
    else
      var k := Consumed(aborted, n - 1);
      if k < n - 1 then k else if aborted(n) then n - 1 else n
  }

  /** The consumer loop: `results` are the futures in completion order. Each
      completion bumps the counter; an abort stops the loop before the row is
      used or progress is shown; otherwise a truthy result is kept and the
      counter is shown. */
  method Consume<T>(results: seq<Finished<T>>, aborted: nat -> bool, keep: T -> bool)
    returns (rows: seq<T>, progress: seq<nat>)
    ensures |progress| == Consumed(aborted, |results|)
    ensures forall i :: 0 <= i < |progress| ==> progress[i] == i + 1
    ensures rows == Filter(ReturnedValues(results[..|progress|]), keep)
  {
    rows, progress := [], [];
    var completed := 0;
    while completed < |results| && !aborted(completed + 1)
      invariant completed <= |results| && |progress| == completed
      invariant NoAbortUpTo(aborted, completed)
      invariant CountsUp(progress)
      invariant rows == Kept(results, completed, keep)
    {
      KeptSnoc(results, completed, keep);
      var f := results[completed];
      if f.Returned? && keep(f.value) {
        rows := rows + [f.value];
      }
      progress := progress + [completed + 1];
      completed := completed + 1;
    }
    if completed < |results| {
      ConsumedAt(aborted, |results|, completed);
    } else {
      ConsumedAll(aborted, |results|);
    }
  }

  /** The abort flag was down at each of the first `k` completions. */
  predicate NoAbortUpTo(aborted: nat -> bool, k: nat) {
    forall j :: 1 <= j <= k ==> !aborted(j)
  }

  /** The progress shown so far: 1, 2, 3, ... */
  predicate CountsUp(progress: seq<nat>) {
    forall i :: 0 <= i < |progress| ==> progress[i] == i + 1
  }

  /** The values of the first `k` finished tasks that are kept. */
  function Kept<T>(results: seq<Finished<T>>, k: nat, keep: T -> bool): seq<T>
    requires k <= |results|
  {
    Filter(ReturnedValues(results[..k]), keep)
  }

  /** The kept values of one more finished task. */
  lemma KeptSnoc<T>(results: seq<Finished<T>>, k: nat, keep: T -> bool)
    requires k < |results|
    ensures Kept(results, k + 1, keep) ==
      Kept(results, k, keep) + (if results[k].Returned? && keep(results[k].value) then [results[k].value] else [])
  {
    assert results[..k + 1][..k] == results[..k];
    var before := ReturnedValues(results[..k]);
    if results[k].Returned? {
      assert ReturnedValues(results[..k + 1]) == before + [results[k].value];
      FilterAppend(before, results[k].value, keep);
    } else {
      assert ReturnedValues(results[..k + 1]) == before;
    }
  }

  lemma ConsumedAt(aborted: nat -> bool, n: nat, k: nat)
    requires k < n && aborted(k + 1)
    requires NoAbortUpTo(aborted, k)
    ensures Consumed(aborted, n) == k
  {
  }

  lemma ConsumedAll(aborted: nat -> bool, n: nat)
    requires NoAbortUpTo(aborted, n)
    ensures Consumed(aborted, n) == n
  {
  }

  // ---------------------------------------------------------------------
  // _optional_value

  /** `_optional_value(text)`: the stripped text, or None when it is blank. */
  function OptionalValue(text: string): (r: Option<string>)
    ensures r.None? <==> forall i :: 0 <= i < |text| ==> IsSpace(text[i])
    ensures r.Some? ==> r.value == Strip(text) && |r.value| > 0
    ensures r.Some? ==> !IsSpace(r.value[0]) && !IsSpace(r.value[|r.value| - 1])
  {
    TrimEmpty(text, IsSpace);
    var clean := Strip(text);
    if |clean| > 0 then Some(clean) else None
  }

  /** A present optional value reads back as itself. */
  lemma OptionalValueIdempotent(text: string)
    requires OptionalValue(text).Some?
    ensures OptionalValue(OptionalValue(text).value) == OptionalValue(text)
  {
    TrimIdempotent(text, IsSpace);
  }

  /** An optional text put into a request body as it is: a missing value
      travels as JSON null, a present one as its text. */
  function OptionalJson(o: Option<string>): (r: Value)
    ensures o.None? <==> r.Null?
    ensures o.Some? ==> r == Str(o.value)
  {
    match o
    case Some(c) => Str(c)
    case None => Null
  }

  /** `cuit_repr or cuit_rep or "desconocido"`: the folder a row's files go
      under and the CUIT its result row shows. */
  function FolderCuit(represented: Option<string>, login: string): (r: string)
    ensures |r| > 0
    ensures represented.Some? && |represented.value| > 0 ==> r == represented.value
    ensures (represented.None? || |represented.value| == 0) && |login| > 0 ==> r == login
    ensures (represented.None? || |represented.value| == 0) && |login| == 0 ==> r == "desconocido"
  {
    if represented.Some? && |represented.value| > 0 then represented.value
    else if |login| > 0 then login
    else "desconocido"
  }

  // ---------------------------------------------------------------------
  // _redact

  const SecretKey := "clave"
  const Mask := "***"

  /** `_redact(payload)`: a copy of the payload with the password masked. */
  function Redact(payload: seq<(string, Value)>): (r: seq<(string, Value)>)
    ensures Keys(r) == Keys(payload)
    ensures Get(r, SecretKey) == if Get(payload, SecretKey).Some? then Some(Str(Mask)) else None
    ensures forall k :: k != SecretKey ==> Get(r, k) == Get(payload, k)
  {
    var r := seq(|payload|, i requires 0 <= i < |payload| =>
      if payload[i].0 == SecretKey then (SecretKey, Str(Mask)) else payload[i]);
    assert Keys(r) == Keys(payload);
    forall k
      ensures KeyIndex(r, k) == KeyIndex(payload, k)
    {
      KeyIndexSameKeys(r, payload, k);
    }
    r
  }

  /** Lookups only depend on the keys' order. */
  lemma {:induction false} KeyIndexSameKeys(a: seq<(string, Value)>, b: seq<(string, Value)>, k: string)
    requires Keys(a) == Keys(b)
    ensures KeyIndex(a, k) == KeyIndex(b, k)
    decreases |a|
  {
    assert |a| == |Keys(a)| == |b|;
    if |a| > 0 {
      assert a[0].0 == Keys(a)[0] == b[0].0;
      assert Keys(a[1..]) == Keys(a)[1..] == Keys(b)[1..] == Keys(b[1..]);
      KeyIndexSameKeys(a[1..], b[1..], k);
    }
  }
}
