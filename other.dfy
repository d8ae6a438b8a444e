/**
 * util/other.ts: the identifier generator `uuid` and the retry loop
 * `retryFetch` that every download goes through.
 *
 * `Math.random` is replaced by a sequence of random nibbles supplied by the
 * caller, and the network behind `fetchable` by a function that gives the
 * outcome of the n-th attempt to fetch a URL.
 */
module Other {
  import opened Wrappers

  // ---------------------------------------------------------------------------
  // Decimal rendering of numbers inside messages and identifiers
  // ---------------------------------------------------------------------------

  predicate IsDigit(c: char) {
    '0' <= c <= '9'
  }

  /** The number a string of decimal digits denotes, most significant digit first. */
  function DigitsValue(s: string): int {
    if s == [] then 0 else 10 * DigitsValue(s[..|s| - 1]) + (s[|s| - 1] as int - '0' as int)
  }

  /** JavaScript's rendering of a non-negative integer in a template string. */
  function NatToString(n: nat): (s: string)
    ensures |s| >= 1
    ensures forall i :: 0 <= i < |s| ==> IsDigit(s[i])
    ensures n < 10 <==> |s| == 1
  {
    if n < 10 then ["0123456789"[n]]
    else NatToString(n / 10) + ["0123456789"[n % 10]]
  }

  /** `NatToString(n)` is the decimal notation of `n`: its digits denote `n`, with no leading zero. */
  lemma {:induction false} NatToStringValue(n: nat)
    ensures DigitsValue(NatToString(n)) == n
    ensures NatToString(n)[0] == '0' ==> n == 0
  {
    if n >= 10 {
      NatToStringValue(n / 10);
      var front := NatToString(n / 10);
      var s := NatToString(n);
      assert s == front + ["0123456789"[n % 10]];
      assert s[..|s| - 1] == front;
    }
  }

  /** Different numbers print differently, so the identifiers and messages built from them are distinct. */
  lemma NatToStringInjective(a: nat, b: nat)
    requires NatToString(a) == NatToString(b)
    ensures a == b
  {
    NatToStringValue(a);
    NatToStringValue(b);
  }

  // ---------------------------------------------------------------------------
  // uuid
  // ---------------------------------------------------------------------------

  /** One draw of `Math.random() * 16 | 0`. */
  type Nibble = x: int | 0 <= x < 16

  const UuidTemplate: string := "xxxxxxxx-xxxx-4xxx-yxxx-xxxxxxxxxxxx"

  predicate IsLowerHex(c: char) {
    '0' <= c <= '9' || 'a' <= c <= 'f'
  }

  /** The RFC 4122 variant digit: `8`, `9`, `a` or `b`. */
  predicate IsVariantDigit(c: char) {
    c == '8' || c == '9' || c == 'a' || c == 'b'
  }

  /** What `uuid` may put where the template has `t`. */
  predicate Fills(t: char, c: char) {
    if t == 'x' then IsLowerHex(c)
    else if t == 'y' then IsVariantDigit(c)
    else c == t
  }

  /** `n` copies of the template placeholder `x`. */
  function Xs(n: nat): (s: string)
    ensures |s| == n && forall i :: 0 <= i < n ==> s[i] == 'x'
  {
    seq(n, _ => 'x')
  }

  /** The character the template holds at position `i`. */
  function TemplateChar(i: nat): char {
    if i == 8 || i == 13 || i == 18 || i == 23 then '-'
    else if i == 14 then '4'
    else if i == 19 then 'y'
    else 'x'
  }

  /** The template as its runs of placeholders and fixed characters. */
  function TemplateParts(): string {
    Xs(8) + "-" + Xs(4) + "-4" + Xs(3) + "-y" + Xs(3) + "-" + Xs(12)
  }

  lemma TemplateSplit()
    ensures UuidTemplate == TemplateParts()
  {
  }

  lemma TemplatePartsAt(i: nat)
    requires i < 36
    ensures |TemplateParts()| == 36 && TemplateParts()[i] == TemplateChar(i)
  {
    var a := Xs(8) + "-" + Xs(4) + "-4";
    var b := Xs(3) + "-y" + Xs(3);
    var c := "-" + Xs(12);
    assert TemplateParts() == a + b + c;
    if i < 15 {
      assert TemplateParts()[i] == a[i];
    } else if i < 23 {
      assert TemplateParts()[i] == b[i - 15];
    } else {
      assert TemplateParts()[i] == c[i - 23];
    }
  }

  lemma TemplateAt(i: nat)
    requires i < 36
    ensures |UuidTemplate| == 36 && UuidTemplate[i] == TemplateChar(i)
  {
    TemplateSplit();
    TemplatePartsAt(i);
  }

  /** `n.toString(16)` for a single nibble. */
  function HexDigit(n: Nibble): (c: char)
    ensures IsLowerHex(c)
  {
    "0123456789abcdef"[n]
  }

  /**
   * The replacement callback of `uuid`: each `x` becomes a random nibble,
   * each `y` becomes `r & 0x3 | 0x8` (which, for a nibble, is `r % 4 + 8`),
   * every other template character stays. Draws are consumed left to right;
   * once `rand` runs out, the draw reads as 0.
   */
  function Fill(t: string, rand: seq<Nibble>): (r: string)
    ensures |r| == |t|
    ensures forall i :: 0 <= i < |t| ==> Fills(t[i], r[i])
  {
    if t == [] then []
    else
      var draw: Nibble := if |rand| > 0 then rand[0] else 0;
      var rest := if (t[0] == 'x' || t[0] == 'y') && |rand| > 0 then rand[1..] else rand;
      var head :=
        if t[0] == 'x' then HexDigit(draw)
        else if t[0] == 'y' then HexDigit(draw % 4 + 8)
        else t[0];
      [head] + Fill(t[1..], rest)
  }

  /** `uuid()`: a version-4 style identifier built from the supplied draws. */
  function Uuid(rand: seq<Nibble>): (r: string)
    ensures |r| == 36
    ensures r[8] == '-' && r[13] == '-' && r[18] == '-' && r[23] == '-'
    ensures r[14] == '4'
    ensures IsVariantDigit(r[19])
    ensures forall i :: 0 <= i < 36 && i != 8 && i != 13 && i != 18 && i != 23 ==> IsLowerHex(r[i])
  {
    var r := Fill(UuidTemplate, rand);
    assert forall i | 0 <= i < 36 :: UuidTemplate[i] == TemplateChar(i) by {
      forall i | 0 <= i < 36 ensures UuidTemplate[i] == TemplateChar(i) {
        TemplateAt(i);
      }
    }
    r
  }

  // ---------------------------------------------------------------------------
  // retryFetch
  // ---------------------------------------------------------------------------

  /** What `fetchable` resolves to: a text body or raw bytes. */
  datatype Payload = Text(text: string) | Bytes(bytes: seq<bv8>)

  /** The payload written for a download whose failure was tolerated (`""`). */
  const EmptyPayload: Payload := Text("")

  /** The outcome of one call to `fetchable`. */
  datatype FetchOutcome = Fetched(data: Payload) | Failed(reason: string)

  /** `Network(url, i)` is the outcome of the attempt numbered `i` (from 0) to fetch `url`. */
  type Network = (string, nat) -> FetchOutcome

  /** Index of the final, uncaught attempt: the loop runs `retry - 1` times. */
  function LastAttempt(retry: int): nat {
    if retry - 1 > 0 then retry - 1 else 0
  }

  /** First attempt index from `i` on that succeeds, or `last` if none before it does. */
  function FirstSuccessFrom(net: Network, url: string, last: nat, i: nat): (k: nat)
    requires i <= last
    ensures i <= k <= last
    ensures forall j :: i <= j < k ==> net(url, j).Failed?
    ensures k < last ==> net(url, k).Fetched?
    decreases last - i
  {
    if i == last || net(url, i).Fetched? then i
    else FirstSuccessFrom(net, url, last, i + 1)
  }

  /** The attempt whose outcome `retryFetch` reports. */
  function DecidingAttempt(net: Network, url: string, retry: int): (k: nat)
    ensures k <= LastAttempt(retry)
    ensures forall j :: 0 <= j < k ==> net(url, j).Failed?
    ensures k < LastAttempt(retry) ==> net(url, k).Fetched?
  {
    FirstSuccessFrom(net, url, LastAttempt(retry), 0)
  }

  /** What `retryFetch(url, timeout, retry, log)` settles to. */
  function Retried(net: Network, url: string, retry: int): FetchOutcome {
    net(url, DecidingAttempt(net, url, retry))
  }

  /** The message logged when attempt `i` (from 0) is caught. */
  function RetryMessage(url: string, i: nat): string {
    "Failed to fetch `" + url + "` " + NatToString(i + 1) + " "
    + (if i == 0 then "time" else "times") + ". Retrying..."
  }

  /** The messages logged by the first `n` caught attempts, in order. */
  function RetryLog(url: string, n: nat): (log: seq<string>)
    ensures |log| == n
    ensures forall i :: 0 <= i < n ==> log[i] == RetryMessage(url, i)
  {
    if n == 0 then [] else RetryLog(url, n - 1) + [RetryMessage(url, n - 1)]
  }

  /**
   * `retryFetch`: up to `retry - 1` caught attempts, returning on the first
   * success, then one last attempt whose failure is not caught. `attempts`
   * counts the calls to `fetchable`; `log` is what went to the `log` callback.
   */
  method RetryFetch(url: string, retry: int, net: Network)
    returns (result: FetchOutcome, attempts: nat, log: seq<string>)
    ensures 1 <= attempts <= LastAttempt(retry) + 1
    ensures attempts == DecidingAttempt(net, url, retry) + 1
    ensures result == net(url, attempts - 1)
    ensures forall j :: 0 <= j < attempts - 1 ==> net(url, j).Failed?
    ensures result.Failed? ==> attempts == LastAttempt(retry) + 1
    ensures log == RetryLog(url, attempts - 1)
  {
    var i := 0;
    log := [];
    while i < retry - 1
      invariant 0 <= i <= LastAttempt(retry)
      invariant forall j :: 0 <= j < i ==> net(url, j).Failed?
      invariant log == RetryLog(url, i)
    {
      var outcome := net(url, i);
      if outcome.Fetched? {
        return outcome, i + 1, log;
      }
      log := log + [RetryMessage(url, i)];
      i := i + 1;
    }
    result, attempts := net(url, i), i + 1;
  }

  /** With `retry <= 1` there is exactly one attempt and its outcome is the result. */
  lemma SingleAttempt(net: Network, url: string, retry: int)
    requires retry <= 1
    ensures DecidingAttempt(net, url, retry) == 0
    ensures Retried(net, url, retry) == net(url, 0)
  {
  }

  /** Every failure of `retryFetch` is the failure of its final attempt. */
  lemma OnlyLastFailureEscapes(net: Network, url: string, retry: int)
    ensures Retried(net, url, retry).Failed? <==>
      forall j :: 0 <= j <= LastAttempt(retry) ==> net(url, j).Failed?
  {
    var k := DecidingAttempt(net, url, retry);
    if Retried(net, url, retry).Failed? {
      assert k == LastAttempt(retry);
    }
  }
}
