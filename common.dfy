/** Shared vocabulary of the access-control engine: identifiers, instants,
    optional values, the HTTP exceptions the services throw, and the list
    helpers (`filter`, `join`, number formatting) the services use. */
module Common {

  /** Row identifiers (uuid strings). */
  type Id = string

  /** An instant, as the source's `Date` values; the clock is always passed in. */
  type Timestamp = int

  /** A value that may be absent (`null` / `undefined`). */
  datatype Option<+T> = None | Some(value: T) {
    /** `this ?? default`. */
    function GetOr(default: T): T {
      match this
      case Some(v) => v
      case None => default
    }
  }

  /** The NestJS exception classes the core throws; `InternalServerError` is
      what an error from the database client becomes. */
  datatype Status = BadRequest | Unauthorized | Forbidden | NotFound | Conflict | InternalServerError

  /** A thrown exception: its class and its message. */
  datatype HttpError = HttpError(status: Status, message: string)

  /** The outcome of an operation that returns a value or throws. */
  datatype Result<+T> = Ok(value: T) | Err(error: HttpError)

  /** The outcome of an operation that returns nothing or throws. */
  datatype Outcome = Done | Fail(error: HttpError)

  /** The database client's error when a unique index (the primary key or a
      unique column) rejects a write. */
  function UniqueConstraintFailed(column: string): HttpError
  {
    HttpError(InternalServerError, "Unique constraint failed on the fields: (`" + column + "`)")
  }

  /** The database client's error when `update` finds no row with the key. */
  const RecordToUpdateNotFound := HttpError(InternalServerError, "Record to update not found.")

  /** The database client's error when `delete` finds no row with the key. */
  const RecordToDeleteNotFound := HttpError(InternalServerError, "Record to delete does not exist.")

  /** The ids of `ids` that are not in `known`, in order and with repeats:
      what the validation loops collect when they visit each id in turn and
      push the ones whose lookup finds nothing. */
  function Missing(ids: seq<Id>, known: set<Id>): (r: seq<Id>)
    ensures |r| <= |ids|
    ensures forall x :: x in r <==> x in ids && x !in known
    decreases |ids|
  {
    if ids == [] then []
    else
      var init, last := ids[..|ids| - 1], ids[|ids| - 1];
      assert ids == init + [last];
      Missing(init, known) + (if last in known then [] else [last])
  }

  /** Nothing is missing exactly when every id is known. */
  lemma MissingEmptyIff(ids: seq<Id>, known: set<Id>)
    ensures Missing(ids, known) == [] <==> forall x :: x in ids ==> x in known
  {
    if Missing(ids, known) != [] {
      assert Missing(ids, known)[0] in Missing(ids, known);
    }
  }

  /** Filtering one more id of a list appends it when it is unknown. */
  lemma MissingStep(ids: seq<Id>, i: nat, known: set<Id>)
    requires i < |ids|
    ensures Missing(ids[..i + 1], known) == Missing(ids[..i], known) + (if ids[i] in known then [] else [ids[i]])
  {
    assert ids[..i + 1][..i] == ids[..i];
  }

  /** `xs.join(sep)`. */
  function Join(xs: seq<string>, sep: string): string
    decreases |xs|
  {
    if xs == [] then ""
    else if |xs| == 1 then xs[0]
    else xs[0] + sep + Join(xs[1..], sep)
  }

  /** The decimal digit for `d`. */
  function Digit(d: nat): char
    requires d < 10
  {
    "0123456789"[d]
  }

  /** Whether every character of `s` is a decimal digit. */
  predicate AllDigits(s: string)
  {
    forall i :: 0 <= i < |s| ==> '0' <= s[i] <= '9'
  }

  /** The number a string of decimal digits spells. */
  function DigitsValue(s: string): nat
    requires AllDigits(s)
    decreases |s|
  {
    if s == [] then 0
    else DigitsValue(s[..|s| - 1]) * 10 + (s[|s| - 1] as int - '0' as int)
  }

  /** The decimal rendering of `n`, as `${n}` in a template literal: the
      digits spell `n`, with no leading zero. */
  function NatToString(n: nat): (s: string)
    ensures |s| >= 1
    ensures AllDigits(s)
    ensures DigitsValue(s) == n
    ensures |s| > 1 ==> s[0] != '0'
    decreases n
  {
    if n < 10 then [Digit(n)] else NatToString(n / 10) + [Digit(n % 10)]
  }

  /** The decimal rendering of an integer that may be negative. */
  function IntToString(n: int): string
  {
    if n < 0 then "-" + NatToString(-n) else NatToString(n)
  }

  /** ASCII lower-casing of one character. */
  function LowerChar(c: char): (d: char)
    ensures 'A' <= c <= 'Z' ==> d as int == c as int + 32
    ensures !('A' <= c <= 'Z') ==> d == c
  {
    if 'A' <= c <= 'Z' then (c as int + 32) as char else c
  }

  /** `s.toLowerCase()` on the ASCII letters: each character lowered on
      its own, the length kept. */
  function Lower(s: string): (t: string)
    ensures |t| == |s|
    ensures forall i :: 0 <= i < |s| ==> t[i] == LowerChar(s[i])
  {
    if s == [] then [] else [LowerChar(s[0])] + Lower(s[1..])
  }

  /** Lowering twice is lowering once. */
  lemma LowerIdempotent(s: string)
    ensures Lower(Lower(s)) == Lower(s)
  {
    assert forall i :: 0 <= i < |s| ==> Lower(Lower(s))[i] == LowerChar(LowerChar(s[i])) == LowerChar(s[i]);
  }
}
