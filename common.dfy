/** Shared vocabulary of the controllers: optional request fields, the error
    taxonomy and its HTTP status codes, document ids and JavaScript truthiness. */
module Common {

  datatype Option<+T> = None | Some(value: T)

  /** The HTTP errors the controllers raise through ApiError. */
  datatype ApiError = BadRequest | Unauthorized | NotFound | ServerError {
    function Code(): (c: nat)
      ensures 400 <= c < 600
    {
      match this
      case BadRequest => 400
      case Unauthorized => 401
      case NotFound => 404
      case ServerError => 500
    }
  }

  /** Outcome of a request handler: the response payload or the raised error. */
  datatype Result<+T> = Ok(value: T) | Err(error: ApiError)

  /** A document id as it travels in a URL or a request body. */
  type Id = string

  predicate IsHexDigit(c: char)
  {
    ('0' <= c <= '9') || ('a' <= c <= 'f') || ('A' <= c <= 'F')
  }

  /** mongoose.Types.ObjectId.isValid on a string: 24 hexadecimal characters.
      The same test decides whether Mongoose can cast a string to an ObjectId
      inside a query; a failed cast raises a CastError. */
  predicate IsValidId(s: string)
  {
    |s| == 24 && forall i :: 0 <= i < |s| ==> IsHexDigit(s[i])
  }

  /** `!x` on an optional string field: undefined and "" are falsy. */
  predicate Truthy(s: Option<string>)
  {
    s.Some? && s.value != ""
  }

  /** No element occurs twice. */
  predicate NoDup<T(==)>(s: seq<T>)
  {
    forall i, j :: 0 <= i < j < |s| ==> s[i] != s[j]
  }

  /** Number of occurrences of `x` in `s`. */
  function Occurrences<T(==)>(s: seq<T>, x: T): (n: nat)
    ensures n <= |s|
    ensures n == 0 <==> x !in s
  {
    if s == [] then 0
    else (if s[|s| - 1] == x then 1 else 0) + Occurrences(s[..|s| - 1], x)
  }

  lemma {:induction false} OccurrencesAppend<T>(s: seq<T>, y: T, x: T)
    ensures Occurrences(s + [y], x) == Occurrences(s, x) + (if y == x then 1 else 0)
  {
    assert (s + [y])[..|s + [y]| - 1] == s;
  }

  /** Without duplicates, a present element occurs exactly once. */
  lemma {:induction false} NoDupOccursOnce<T>(s: seq<T>, x: T)
    requires NoDup(s) && x in s
    ensures Occurrences(s, x) == 1
  {
    var last := s[|s| - 1];
    var init := s[..|s| - 1];
    assert s == init + [last];
    assert NoDup(init);
    if last == x {
      assert x !in init by {
        forall k | 0 <= k < |init| ensures init[k] != x {
          assert s[k] == init[k];
        }
      }
    } else {
      assert x in init by {
        var k :| 0 <= k < |s| && s[k] == x;
        assert k < |init|;
        assert init[k] == x;
      }
      NoDupOccursOnce(init, x);
    }
  }
}
