/** Shared vocabulary: document ids, an Option type and counting over sequences. */
module Common {

  /** A MongoDB ObjectId, compared through its string form. */
  type Id = string

  datatype Option<+T> = None | Some(value: T) {
    function GetOr(default: T): T {
      match this
      case Some(v) => v
      case None => default
    }
  }

  /** `String(x)` in JavaScript for an id that may be `undefined`. */
  function Str(x: Option<Id>): string {
    match x
    case Some(v) => v
    case None => "undefined"
  }

  /**
   * What an axios call on the client gets back: a 2xx reply with its `success` flag and `message`
   * (axios resolves), or a rejection carrying `err.response.data.message`. "" is a missing message.
   */
  datatype HttpResponse = Answered(success: bool, message: string) | Threw(message: string)

  /** `a || b` on strings: the left operand when it is truthy, else the right one. */
  function Or(a: string, b: string): (r: string)
    ensures r == "" <==> a == "" && b == ""
    ensures r == a || r == b
  {
    if a != "" then a else b
  }

  /** Number of occurrences of `x` in `s`. */
  function Count<T(==)>(s: seq<T>, x: T): nat {
    if s == [] then 0 else (if s[0] == x then 1 else 0) + Count(s[1..], x)
  }

  lemma {:induction false} CountAppend<T>(s: seq<T>, y: T, x: T)
    ensures Count(s + [y], x) == Count(s, x) + (if x == y then 1 else 0)
  {
    if s != [] {
      assert (s + [y])[1..] == s[1..] + [y];
      CountAppend(s[1..], y, x);
    }
  }

  lemma {:induction false} CountZeroIffAbsent<T>(s: seq<T>, x: T)
    ensures Count(s, x) == 0 <==> x !in s
  {
    if s != [] {
      CountZeroIffAbsent(s[1..], x);
      assert s == [s[0]] + s[1..];
    }
  }

  /** `if (!s.includes(x)) s.push(x)`: the array as a set-like ledger. */
  function AppendIfAbsent<T(==)>(s: seq<T>, x: T): (r: seq<T>)
    ensures x in r
    ensures |s| <= |r| <= |s| + 1 && r[..|s|] == s
    ensures x in s ==> r == s
  {
    if x in s then s else s + [x]
  }

  /** Appending an element that is already present changes nothing. */
  lemma AppendIfAbsentIdempotent<T>(s: seq<T>, x: T)
    ensures AppendIfAbsent(AppendIfAbsent(s, x), x) == AppendIfAbsent(s, x)
  {
  }

  /** Once `x` is in the ledger it occurs exactly as often as before, and at least once. */
  lemma AppendIfAbsentCount<T>(s: seq<T>, x: T)
    ensures Count(AppendIfAbsent(s, x), x) == if x in s then Count(s, x) else 1
  {
    if x !in s {
      CountAppend(s, x, x);
      CountZeroIffAbsent(s, x);
    }
  }

  /** Calling the ledger operation twice on a fresh element leaves exactly one occurrence. */
  lemma AppendIfAbsentTwiceOnce<T>(s: seq<T>, x: T)
    requires x !in s
    ensures Count(AppendIfAbsent(AppendIfAbsent(s, x), x), x) == 1
  {
    AppendIfAbsentCount(s, x);
  }
}
