/** The few pieces of .NET library behaviour that the core's logic depends on, written out so
    that the rest of the model can state its contracts in terms of them: exception values,
    `string.IsNullOrWhiteSpace`, `string.Replace`, integer formatting, the HTTP success range
    and the shared `HttpClient` state that the retrieval strategies change. */
module DotNet {
  import opened Wrappers

  datatype ExceptionKind =
    | ArgumentNull
    | Argument
    | InvalidOperation
    | DirectoryNotFound
    | FileNotFound
    | HttpRequest
    | UriFormat
    | TaskCanceled
    | Other

  /** A thrown exception: its run-time type and its `Message`. */
  datatype Exception = Exception(Kind: ExceptionKind, Message: string)

  /** `new ArgumentNullException(paramName)`, with the message .NET gives it. */
  function ArgumentNullException(paramName: string): Exception {
    Exception(ArgumentNull, "Value cannot be null. (Parameter '" + paramName + "')")
  }

  /** The characters for which `char.IsWhiteSpace` holds (the Unicode White_Space set). */
  const WhiteSpace: set<char> := {
    ' ', '\t', '\n', '\U{000B}', '\U{000C}', '\r', '\U{0085}', '\U{00A0}', '\U{1680}',
    '\U{2000}', '\U{2001}', '\U{2002}', '\U{2003}', '\U{2004}', '\U{2005}', '\U{2006}',
    '\U{2007}', '\U{2008}', '\U{2009}', '\U{200A}', '\U{2028}', '\U{2029}', '\U{202F}',
    '\U{205F}', '\U{3000}'
  }

  /** `string.IsNullOrWhiteSpace`: null, empty, or white space only. A string that passes
      the check is present and holds at least one other character. */
  function IsNullOrWhiteSpace(s: Option<string>): (r: bool)
    ensures s == None || s == Some("") ==> r
    ensures !r ==> s.Some? && exists i :: 0 <= i < |s.value| && s.value[i] !in WhiteSpace
    ensures s.Some? && (exists i :: 0 <= i < |s.value| && s.value[i] !in WhiteSpace) ==> !r
  {
    match s
    case None => true
    case Some(t) => forall i :: 0 <= i < |t| ==> t[i] in WhiteSpace
  }

  /** `p` occurs in `s` starting at position `i`. */
  ghost predicate OccursAt(s: string, p: string, i: int) {
    0 <= i <= |s| - |p| && s[i..i + |p|] == p
  }

  /** `p` occurs somewhere in `s`. */
  ghost predicate Contains(s: string, p: string) {
    exists i :: OccursAt(s, p, i)
  }

  /** `s.Replace(oldValue, newValue)`: every occurrence of `oldValue`, scanned from the left
      and without overlap, is replaced by `newValue`. */
  function Replace(s: string, oldValue: string, newValue: string): (r: string)
    requires |oldValue| > 0
    ensures newValue == oldValue ==> r == s
    ensures |newValue| == |oldValue| ==> |r| == |s|
    ensures newValue == [] ==> |r| <= |s|
    decreases |s|
  {
    if |s| < |oldValue| then s
    else if s[..|oldValue|] == oldValue then newValue + Replace(s[|oldValue|..], oldValue, newValue)
    else [s[0]] + Replace(s[1..], oldValue, newValue)
  }

  /** A string in which `oldValue` does not occur comes back from `Replace` unchanged. */
  lemma {:induction false} ReplaceAbsent(s: string, oldValue: string, newValue: string)
    requires |oldValue| > 0 && !Contains(s, oldValue)
    ensures Replace(s, oldValue, newValue) == s
  {
    if |s| >= |oldValue| {
      if s[..|oldValue|] == oldValue {
        assert OccursAt(s, oldValue, 0);
      }
      if Contains(s[1..], oldValue) {
        var i :| OccursAt(s[1..], oldValue, i);
        assert s[1..][i..i + |oldValue|] == s[i + 1..i + 1 + |oldValue|];
        assert OccursAt(s, oldValue, i + 1);
      }
      ReplaceAbsent(s[1..], oldValue, newValue);
    }
  }

  /** An occurrence at the front is replaced and the scan resumes after it. */
  lemma ReplaceAtFront(rest: string, oldValue: string, newValue: string)
    requires |oldValue| > 0
    ensures Replace(oldValue + rest, oldValue, newValue) == newValue + Replace(rest, oldValue, newValue)
  {
    assert (oldValue + rest)[..|oldValue|] == oldValue;
    assert (oldValue + rest)[|oldValue|..] == rest;
  }

  /** A stretch without the first character of `oldValue` is copied through unchanged. */
  lemma {:induction false} ReplaceSkipsPrefix(a: string, t: string, oldValue: string, newValue: string)
    requires |oldValue| > 0 && oldValue[0] !in a
    ensures Replace(a + t, oldValue, newValue) == a + Replace(t, oldValue, newValue)
  {
    if a != [] {
      var s := a + t;
      assert s[0] == a[0] != oldValue[0];
      if |s| < |oldValue| {
        assert |t| < |oldValue|;
      } else {
        assert s[..|oldValue|][0] == s[0];
        assert s[1..] == a[1..] + t;
        ReplaceSkipsPrefix(a[1..], t, oldValue, newValue);
        assert [a[0]] + a[1..] == a;
      }
    } else {
      assert a + t == t;
    }
  }

  function DigitChar(d: nat): char
    requires d < 10
  {
    ('0' as int + d) as char
  }

  predicate IsDigit(c: char) {
    '0' <= c <= '9'
  }

  /** The number a string of decimal digits denotes, most significant first. */
  function DigitsValue(s: string): nat
    requires forall i :: 0 <= i < |s| ==> IsDigit(s[i])
  {
    if s == [] then 0
    else
      var last := s[|s| - 1];
      assert IsDigit(last);
      DigitsValue(s[..|s| - 1]) * 10 + (last as int - '0' as int)
  }

  /** Decimal digits of a natural number, most significant first: digits only, no leading
      zero, and they denote the number. */
  function NatToString(n: nat): (r: string)
    ensures |r| > 0
    ensures forall i :: 0 <= i < |r| ==> IsDigit(r[i])
    ensures r[0] == '0' ==> r == "0"
    ensures DigitsValue(r) == n
    decreases n
  {
    if n < 10 then [DigitChar(n)]
    else
      var prefix := NatToString(n / 10);
      var r := prefix + [DigitChar(n % 10)];
      assert r[..|r| - 1] == prefix;
      r
  }

  /** `int.ToString()` in the invariant culture. */
  function IntToString(n: int): (r: string)
    ensures n >= 0 ==> r == NatToString(n) && DigitsValue(r) == n
    ensures n < 0 ==> |r| > 1 && r[0] == '-' && r[1..] == NatToString(-n) && DigitsValue(r[1..]) == -n
  {
    if n < 0 then
      var digits := NatToString(-n);
      assert ("-" + digits)[1..] == digits;
      "-" + digits
    else NatToString(n)
  }

  /** `HttpResponseMessage.IsSuccessStatusCode`. */
  predicate IsSuccessStatusCode(statusCode: int) {
    200 <= statusCode <= 299
  }

  datatype QueryParameter = QueryParameter(Key: string, Value: string)

  /** A GET request as handed to the transport: address and query string parameters. */
  datatype Request = Request(Address: string, Query: seq<QueryParameter>)

  /** What the client's property setters throw after the first request. */
  const AlreadyStarted := Exception(InvalidOperation,
    "This instance has already started one or more requests. Properties can only be modified before sending the first request.")

  /** The state of the shared `HttpClient` that the strategies change: `BaseAddress`, the
      `Accept` entries of `DefaultRequestHeaders`, and the requests issued with `GetAsync`. */
  class HttpClient {
    var BaseAddress: Option<string>
    var AcceptHeaders: seq<string>
    var Requests: seq<Request>

    constructor ()
      ensures BaseAddress == None && AcceptHeaders == [] && Requests == []
    {
      BaseAddress := None;
      AcceptHeaders := [];
      Requests := [];
    }

    /** `DefaultRequestHeaders.Accept.Add(new MediaTypeWithQualityHeaderValue(mediaType))`:
        the collection only grows, so a repeated call leaves a duplicate entry. */
    method AddAccept(mediaType: string)
      modifies this`AcceptHeaders
      ensures AcceptHeaders == old(AcceptHeaders) + [mediaType]
    {
      AcceptHeaders := AcceptHeaders + [mediaType];
    }

    /** The `BaseAddress` setter: like every property setter of the client, it throws once
        the client has started a request. */
    method SetBaseAddress(address: string) returns (raised: Option<Exception>)
      modifies this`BaseAddress
      ensures Requests != [] ==> raised == Some(AlreadyStarted) && BaseAddress == old(BaseAddress)
      ensures Requests == [] ==> raised == None && BaseAddress == Some(address)
    {
      if Requests != [] {
        return Some(AlreadyStarted);
      }
      BaseAddress := Some(address);
      raised := None;
    }

    /** The sending half of `GetAsync`; what comes back is an input of the caller's model. */
    method GetAsync(request: Request)
      modifies this`Requests
      ensures Requests == old(Requests) + [request]
    {
      Requests := Requests + [request];
    }
  }
}
