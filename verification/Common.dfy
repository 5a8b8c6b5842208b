/** Types shared by the models: optional values, results that carry the source's error text, and
    the service endpoint record that the balancers and the agent registry pass around. */
module Common {
  datatype Option<+T> = None | Some(value: T)

  datatype Result<+T> = Ok(value: T) | Err(error: string)

  /** `common::ServiceEndpoint`, without heartbeat times. */
  datatype Endpoint = Endpoint(
    host: string,
    port: nat,
    serviceName: string,
    version: string,
    healthy: bool,
    metadata: map<string, string>,
    tags: seq<string>,
    skills: seq<string>,
    agentCard: string)
  {
    /** The identifier `host:port` under which the balancers know an endpoint. */
    function Id(): string { host + ":" + Decimal(port) }
  }

  /** `std::to_string` of a non-negative number. */
  function Decimal(n: nat): string {
    if n < 10 then [Digit(n)] else Decimal(n / 10) + [Digit(n % 10)]
  }

  function Digit(d: nat): char
    requires d < 10
  {
    '0' + d as char
  }

  /** What stands before and after the only colon of one part can be told from the whole. */
  lemma FirstColon(u: string, x: string, v: string, y: string)
    requires ':' !in u && ':' !in v && u + ":" + x == v + ":" + y
    ensures u == v && x == y
  {
    var s := u + ":" + x;
    assert s[|u|] == ':' && s[|v|] == ':';
    assert |u| == |v|;
    assert u == s[..|u|] && v == s[..|v|];
    assert x == s[|u| + 1..] && y == s[|v| + 1..];
  }

  lemma LastColon(u: string, x: string, v: string, y: string)
    requires ':' !in x && ':' !in y && u + ":" + x == v + ":" + y
    ensures u == v && x == y
  {
    var s := u + ":" + x;
    assert s[|u|] == ':' && s[|v|] == ':';
    assert forall i | |u| < i < |s| :: s[i] == x[i - |u| - 1];
    assert forall i | |v| < i < |s| :: s[i] == y[i - |v| - 1];
    assert |u| == |v|;
    assert u == s[..|u|] && v == s[..|v|];
    assert x == s[|u| + 1..] && y == s[|v| + 1..];
  }

  /** Identifiers tell endpoints apart: the port is digits only, so the last colon ends the host. */
  lemma IdsAreDistinct(a: Endpoint, b: Endpoint)
    ensures a.Id() == b.Id() <==> a.host == b.host && a.port == b.port
  {
    if a.Id() == b.Id() {
      DecimalRoundTrip(a.port);
      DecimalRoundTrip(b.port);
      hide Decimal, DecimalValue;
      LastColon(a.host, Decimal(a.port), b.host, Decimal(b.port));
    }
  }

  /** The number that a string of digits denotes; the inverse of `Decimal`. */
  function DecimalValue(s: string): int {
    if s == [] then 0 else 10 * DecimalValue(s[..|s| - 1]) + (s[|s| - 1] as int - '0' as int)
  }

  lemma {:induction false} DecimalRoundTrip(n: nat)
    ensures DecimalValue(Decimal(n)) == n
    ensures forall i | 0 <= i < |Decimal(n)| :: '0' <= Decimal(n)[i] <= '9'
  {
    var s := Decimal(n);
    if n >= 10 {
      DecimalRoundTrip(n / 10);
      assert s[..|s| - 1] == Decimal(n / 10);
    } else {
      assert s[..0] == [];
    }
  }

  lemma QuotientAtLeast(x: real, y: real, c: real)
    requires y > 0.0
    ensures x / y >= c <==> x >= c * y
  {
    var q := x / y;
    assert q * y == x;
    if q >= c { assert q * y >= c * y; } else { assert q * y < c * y; }
  }

  /** No element occurs twice. */
  ghost predicate NoDuplicates<T>(s: seq<T>) {
    forall i, j | 0 <= i < j < |s| :: s[i] != s[j]
  }

  ghost function Elements<T>(s: seq<T>): set<T> {
    set x | x in s
  }

  lemma {:induction false} ElementsSize<T>(s: seq<T>)
    ensures |Elements(s)| <= |s|
    ensures |Elements(s)| == |s| <==> NoDuplicates(s)
  {
    if s != [] {
      var n := |s| - 1;
      var front := s[..n];
      ElementsSize(front);
      assert forall i | 0 <= i < n :: front[i] == s[i];
      if s[n] in front {
        assert Elements(s) == Elements(front);
      } else {
        assert Elements(s) == Elements(front) + {s[n]};
      }
    }
  }
}
