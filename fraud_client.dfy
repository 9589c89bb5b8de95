/** The fraud-scoring client (internal/service/fraud_client.go): the unconfigured HTTP client's
    fixed answer and the in-memory byte reader that carries the request body. */
module FraudClient {
  import opened Results
  import opened Domain

  const BenignScore: real := 0.1

  /** The response returned when no fraud API URL is configured. */
  function BenignResponse(): map<string, Value>
  {
    map["score" := Float64(BenignScore), "recommendation" := Str("approve")]
  }

  datatype HTTPFraudClient = HTTPFraudClient(url: string)

  /** HTTPFraudClient.Evaluate. `post` stands for the HTTP round trip with the given payload
      (request, 5-second timeout, JSON decoding); it is consulted only when a URL is set. */
  function Evaluate(
    h: HTTPFraudClient,
    payload: map<string, Value>,
    post: map<string, Value> -> Result<map<string, Value>>): (r: Result<map<string, Value>>)
    ensures h.url == "" ==> r.Ok? && Get(r.value, "score") == Float64(0.1)
                            && Get(r.value, "recommendation") == Str("approve")
                            && r.value.Keys == {"score", "recommendation"}
    ensures h.url != "" ==> r == post(payload)
  {
    if h.url == "" then Ok(BenignResponse()) else post(payload)
  }

  /** An unconfigured client answers the same for every payload and every transport. */
  lemma UnconfiguredIgnoresPayload(
    payload: map<string, Value>, payload': map<string, Value>,
    post: map<string, Value> -> Result<map<string, Value>>,
    post': map<string, Value> -> Result<map<string, Value>>)
    ensures Evaluate(HTTPFraudClient(""), payload, post) == Evaluate(HTTPFraudClient(""), payload', post')
  {
  }

  newtype byte = x: int | 0 <= x < 256

  const EOF: Error := Error("EOF")

  function Min(a: int, b: int): int
  {
    if a <= b then a else b
  }

  /** bytesReaderT: a cursor `i` over the byte buffer `b`. */
  class BytesReader {
    var b: array<byte>
    var i: int

    ghost predicate Valid()
      reads this
    {
      0 <= i <= b.Length
    }

    /** The bytes not yet read. */
    ghost function Unread(): seq<byte>
      reads this, b
      requires Valid()
    {
      b[i..]
    }

    /** bytesReader(b): a reader at the start of `b`, sharing the buffer. */
    constructor (b: array<byte>)
      ensures Valid() && this.b == b && i == 0 && Unread() == b[..]
    {
      this.b := b;
      i := 0;
    }

    /** Read: at the end, (0, EOF) and no change; otherwise copies
        n = min(len(p), len(b) - i) bytes into the front of `p` and advances by n. As with Go's
        `copy`, `p` may be the buffer itself. */
    method Read(p: array<byte>) returns (n: int, err: Option<Error>)
      requires Valid()
      modifies this`i, p
      ensures Valid()
      ensures old(i) == b.Length ==> n == 0 && err == Some(EOF) && i == old(i) && p[..] == old(p[..])
      ensures old(i) < b.Length ==> err == None && n == Min(p.Length, b.Length - old(i)) && i == old(i) + n
      ensures 0 <= n <= p.Length && old(i) + n <= b.Length
      ensures p[..n] == old(b[i..i + n])
      ensures p[n..] == old(p[n..])
      ensures p != b ==> b[..] == old(b[..])
    {
      if i >= b.Length {
        return 0, Some(EOF);
      }
      n := Min(p.Length, b.Length - i);
      var j := 0;
      while j < n
        invariant 0 <= j <= n && i == old(i)
        invariant forall k :: 0 <= k < j ==> p[k] == old(b[i + k])
        invariant forall k :: n <= k < p.Length ==> p[k] == old(p[k])
        invariant forall k :: j <= k < b.Length ==> b[k] == old(b[k])
        invariant p != b ==> b[..] == old(b[..])
      {
        p[j] := b[i + j];
        j := j + 1;
      }
      i := i + n;
      err := None;
    }

    /** Close: always nil, and the cursor stays where it is. */
    method Close() returns (err: Option<Error>)
      ensures err == None
    {
      err := None;
    }
  }

  /** How the HTTP transport consumes a request body: repeated reads into a non-empty buffer
      end in EOF, and the chunks read concatenate to the unread bytes. */
  method Drain(r: BytesReader, size: nat) returns (data: seq<byte>)
    requires r.Valid() && size > 0
    modifies r
    ensures r.Valid() && r.i == r.b.Length && r.b == old(r.b)
    ensures data == old(r.Unread())
  {
    var p := new byte[size];
    data := [];
    while true
      invariant r.Valid() && r.b == old(r.b) && r.b[..] == old(r.b[..])
      invariant data + r.b[r.i..] == old(r.Unread())
      decreases r.b.Length - r.i
    {
      ghost var start := r.i;
      var n, err := r.Read(p);
      if err.Some? {
        break;
      }
      assert r.b[start..] == p[..n] + r.b[r.i..];
      data := data + p[..n];
    }
  }
}
