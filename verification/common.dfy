/** Shapes shared by the client components, the API routes and the offline store:
    optional values, route replies, users and roles, word items, binary bodies,
    order-preserving filtering and the five-star rating row. */
module Common {

  datatype Option<T> = None | Some(value: T)

  /** A JSON reply of a route handler: the success body (status 200), or an
      error body `{ error: message }` with its HTTP status. */
  datatype Reply<T> = Ok(body: T) | Err(status: int, message: string)
  {
    function Status(): int {
      if Ok? then 200 else status
    }
  }

  function Unauthorized<T>(): Reply<T> {
    Err(401, "Unauthorized")
  }

  function InternalError<T>(): Reply<T> {
    Err(500, "Internal server error")
  }

  /** How an awaited call inside a route handler settles. A rejection is
      caught by the handler's `try`/`catch`, which answers 500. */
  datatype Awaited = Resolves | Rejects

  /** The `users.role` column: one of teacher, student, admin. */
  datatype Role = Teacher | Student | Admin

  /** The session user as the session callback fills it in: an id and a role. */
  datatype User = User(id: string, role: Role)

  /** What `auth()` resolves to: a session with a user, or no user at all
      (no session and a session without `user` behave the same everywhere). */
  type Session = Option<User>

  /** One word of a word set as stored in `wordsets.items`. */
  datatype WordItem = WordItem(word: string, image: Option<string>, order: int)

  newtype byte = x: int | 0 <= x < 256

  /** An opaque binary body: an exported PNG or an uploaded file. */
  datatype Blob = Blob(bytes: seq<byte>)

  /** JavaScript truthiness of an optional string (`undefined`, `null` and `''` are falsy). */
  predicate TruthyText(s: Option<string>) {
    s.Some? && s.value != ""
  }

  /** The elements of `s` that satisfy `p`, in their original order. */
  function Filter<T(==,!new)>(s: seq<T>, p: T -> bool): (r: seq<T>)
    ensures |r| <= |s|
    ensures forall x :: x in r <==> x in s && p(x)
    decreases |s|
  {
    if |s| == 0 then []
    else (if p(s[0]) then [s[0]] else []) + Filter(s[1..], p)
  }

  /** Filtering distributes over concatenation, so relative order is kept. */
  lemma {:induction false} FilterAppend<T(!new)>(a: seq<T>, b: seq<T>, p: T -> bool)
    ensures Filter(a + b, p) == Filter(a, p) + Filter(b, p)
    decreases |a|
  {
    if |a| == 0 {
      assert a + b == b;
    } else {
      assert (a + b)[1..] == a[1..] + b;
      FilterAppend(a[1..], b, p);
    }
  }

  /** Filtering with a predicate every element meets changes nothing. */
  lemma {:induction false} FilterAll<T(!new)>(s: seq<T>, p: T -> bool)
    requires forall i :: 0 <= i < |s| ==> p(s[i])
    ensures Filter(s, p) == s
    decreases |s|
  {
    if |s| > 0 {
      FilterAll(s[1..], p);
    }
  }

  /** Number of `true` entries of a row of flags. */
  function CountTrue(flags: seq<bool>): nat
    decreases |flags|
  {
    if |flags| == 0 then 0 else (if flags[0] then 1 else 0) + CountTrue(flags[1..])
  }

  /** The five-star row: star `i` (0..4) is filled iff `i < filled`. */
  function StarRow(filled: int): (r: seq<bool>)
    ensures |r| == 5
    ensures forall i :: 0 <= i < 5 ==> (r[i] <==> i < filled)
  {
    seq(5, i => i < filled)
  }

  /** A row whose flags are `i < k` from some position on counts the
      positions below `k`. */
  lemma {:induction false} CountPrefixFlags(flags: seq<bool>, start: int, k: int)
    requires 0 <= start
    requires forall i :: 0 <= i < |flags| ==> (flags[i] <==> start + i < k)
    ensures CountTrue(flags) == if k <= start then 0 else if k >= start + |flags| then |flags| else k - start
    decreases |flags|
  {
    if |flags| > 0 {
      CountPrefixFlags(flags[1..], start + 1, k);
    }
  }

  /** Exactly `min(max(filled, 0), 5)` stars are filled. */
  lemma StarRowCount(filled: int)
    ensures CountTrue(StarRow(filled)) == if filled <= 0 then 0 else if filled >= 5 then 5 else filled
  {
    CountPrefixFlags(StarRow(filled), 0, filled);
  }
}
