// Default device ids: server domain, class and a counter per class, joined by '_'.

module DeviceIds {
  const SEPARATOR: char := '_'

  function Digit(d: nat): char
    requires d < 10
  {
    "0123456789"[d]
  }

  // toString
  function Decimal(n: nat): string {
    if n < 10 then [Digit(n)] else Decimal(n / 10) + [Digit(n % 10)]
  }

  // The first and the last token of a string split at '_'
  function Front(s: string): string {
    if s == [] || s[0] == SEPARATOR then [] else [s[0]] + Front(s[1..])
  }

  function Back(s: string): string {
    if s == [] || s[|s| - 1] == SEPARATOR then [] else Back(s[..|s| - 1]) + [s[|s| - 1]]
  }

  function Domain(serverId: string, pid: nat): string {
    if Back(serverId) == Decimal(pid) then Front(serverId) + "-" + Back(serverId) else serverId
  }

  function DefaultId(domain: string, classId: string, index: nat): string {
    domain + "_" + classId + "_" + Decimal(index)
  }

  function CountOf(counts: map<string, nat>, classId: string): nat {
    if classId in counts then counts[classId] else 0
  }

  class DeviceIdGenerator {
    const serverId: string
    const pid: nat
    var deviceInstanceCount: map<string, nat>

    constructor (serverId: string, pid: nat)
      ensures this.serverId == serverId && this.pid == pid && deviceInstanceCount == map[]
    {
      this.serverId := serverId;
      this.pid := pid;
      deviceInstanceCount := map[];
    }

    method GenerateDefaultDeviceId(classId: string) returns (id: string)
      modifies this
      ensures deviceInstanceCount == Counted(old(deviceInstanceCount), classId)
      ensures id == Domain(serverId, pid) + "_" + classId + "_" + Decimal(CountOf(deviceInstanceCount, classId))
      ensures CountOf(deviceInstanceCount, classId) == CountOf(old(deviceInstanceCount), classId) + 1
    {
      var count := CountOf(deviceInstanceCount, classId) + 1;
      deviceInstanceCount := deviceInstanceCount[classId := count];
      var index := Decimal(count);
      var domain := serverId;
      if Back(serverId) == Decimal(pid) {
        domain := Front(serverId) + "-" + Back(serverId);
      }
      id := domain + "_" + classId + "_" + index;
    }
  }

  function Counted(counts: map<string, nat>, classId: string): map<string, nat> {
    counts[classId := CountOf(counts, classId) + 1]
  }

  // The ids that a sequence of requests gets
  ghost function Ids(domain: string, counts: map<string, nat>, requests: seq<string>): seq<string>
    decreases |requests|
  {
    if requests == [] then []
    else
      var c := requests[0];
      [DefaultId(domain, c, CountOf(counts, c) + 1)] + Ids(domain, Counted(counts, c), requests[1..])
  }

  // ----- what the parts of an id are -----

  ghost predicate IsDigit(c: char) {
    '0' <= c <= '9'
  }

  ghost predicate IsNumeral(s: string) {
    forall i :: 0 <= i < |s| ==> IsDigit(s[i])
  }

  // The number that a string of digits stands for
  ghost function NumberOf(s: string): nat
    requires IsNumeral(s)
  {
    if s == [] then 0
    else
      var last := s[|s| - 1];
      assert IsDigit(last);
      NumberOf(s[..|s| - 1]) * 10 + (last as int - '0' as int)
  }

  // A decimal reads back as its number and has no leading zero.
  lemma {:induction false} DecimalReadsBack(n: nat)
    ensures IsNumeral(Decimal(n)) && NumberOf(Decimal(n)) == n
    ensures Decimal(n) != [] && (Decimal(n)[0] == '0' ==> n == 0)
  {
    DigitReadsBack(n % 10);
    if n >= 10 {
      DecimalReadsBack(n / 10);
      OneMoreDigit(Decimal(n / 10), Digit(n % 10));
    } else {
      OneMoreDigit([], Digit(n));
      assert [] + [Digit(n)] == [Digit(n)];
    }
  }

  lemma DigitReadsBack(d: nat)
    requires d < 10
    ensures IsDigit(Digit(d)) && Digit(d) as int - '0' as int == d
  {}

  lemma OneMoreDigit(s: string, c: char)
    requires IsNumeral(s) && IsDigit(c)
    ensures IsNumeral(s + [c]) && NumberOf(s + [c]) == NumberOf(s) * 10 + (c as int - '0' as int)
  {
    assert (s + [c])[..|s|] == s;
  }

  lemma {:induction false} FrontIsFirst(host: string, rest: string)
    requires SEPARATOR !in host
    ensures Front(host + "_" + rest) == host
  {
    var s := host + "_" + rest;
    if host == [] {
      assert s[0] == SEPARATOR;
    } else {
      assert s[0] == host[0] && s[1..] == host[1..] + "_" + rest;
      FrontIsFirst(host[1..], rest);
    }
  }

  lemma {:induction false} BackIsLast(rest: string, last: string)
    requires SEPARATOR !in last
    ensures Back(rest + "_" + last) == last
  {
    var s := rest + "_" + last;
    if last == [] {
      assert s[|s| - 1] == SEPARATOR;
    } else {
      var n := |last| - 1;
      assert s[|s| - 1] == last[n] && s[..|s| - 1] == rest + "_" + last[..n];
      BackIsLast(rest, last[..n]);
    }
  }

  lemma {:induction false} BackOfOneToken(s: string)
    requires SEPARATOR !in s
    ensures Front(s) == s && Back(s) == s
  {
    if s != [] {
      BackOfOneToken(s[1..]);
      BackOfOneToken(s[..|s| - 1]);
    }
  }

  lemma {:induction false} BackEnds(s: string) returns (rest: string)
    ensures s == Back(s) || s == rest + "_" + Back(s)
  {
    rest := [];
    if s != [] {
      var n := |s| - 1;
      if s[n] == SEPARATOR {
        rest := s[..n];
      } else {
        rest := BackEnds(s[..n]);
      }
    }
  }

  lemma DomainOfTokens(host: string, rest: string, pid: nat)
    requires SEPARATOR !in host && Back(host + "_" + rest) == Decimal(pid)
    ensures Domain(host + "_" + rest, pid) == host + "-" + Decimal(pid)
  {
    FrontIsFirst(host, rest);
  }

  // A server id that ends in the process id is shortened to its first token and that...
  lemma DomainIsShortened(host: string, middle: string, pid: nat)
    requires SEPARATOR !in host
    ensures Domain(host + "_" + Decimal(pid), pid) == host + "-" + Decimal(pid)
    ensures Domain(host + "_" + (middle + "_" + Decimal(pid)), pid) == host + "-" + Decimal(pid)
  {
    var p := Decimal(pid);
    DecimalHasNoSeparator(pid);
    BackIsLast(host, p);
    DomainOfTokens(host, p, pid);
    BackIsLast(host + "_" + middle, p);
    Regrouped(host, middle, p);
    DomainOfTokens(host, middle + "_" + p, pid);
  }

  lemma Regrouped(host: string, middle: string, p: string)
    ensures host + "_" + (middle + "_" + p) == (host + "_" + middle) + "_" + p
  {}

  lemma DomainOfPid(pid: nat)
    ensures Domain(Decimal(pid), pid) == Decimal(pid) + "-" + Decimal(pid)
  {
    DecimalHasNoSeparator(pid);
    BackOfOneToken(Decimal(pid));
  }

  // ... and any other is taken as it is.
  lemma DomainIsServerId(serverId: string, pid: nat)
    requires serverId != Decimal(pid) && forall rest :: serverId != rest + "_" + Decimal(pid)
    ensures Domain(serverId, pid) == serverId
  {
    var rest := BackEnds(serverId);
  }

  // ----- injectivity -----

  lemma {:induction false} DecimalHasNoSeparator(n: nat)
    ensures SEPARATOR !in Decimal(n)
  {
    if n >= 10 { DecimalHasNoSeparator(n / 10); }
  }

  lemma {:induction false} DecimalIsInjective(m: nat, n: nat)
    requires Decimal(m) == Decimal(n)
    ensures m == n
  {
    var a, b := Decimal(m), Decimal(n);
    assert a[|a| - 1] == Digit(m % 10) && b[|b| - 1] == Digit(n % 10);
    if m >= 10 && n >= 10 {
      assert a[..|a| - 1] == Decimal(m / 10) && b[..|b| - 1] == Decimal(n / 10);
      DecimalIsInjective(m / 10, n / 10);
    } else {
      DecimalIsNotEmpty(m / 10);
      DecimalIsNotEmpty(n / 10);
    }
  }

  lemma DecimalIsNotEmpty(n: nat)
    ensures Decimal(n) != []
  {}

  lemma LastSeparator(x: string, p: string)
    requires SEPARATOR !in p
    ensures var s := x + "_" + p;
            && s[|x|] == SEPARATOR && s[..|x|] == x && s[|x| + 1..] == p
            && forall i :: |x| < i < |s| ==> s[i] != SEPARATOR
  {
    var s := x + "_" + p;
    forall i | |x| < i < |s|
      ensures s[i] != SEPARATOR
    {
      assert s[i] == p[i - |x| - 1];
    }
  }

  // The last '_' separates class and index, whatever underscores the class has.
  lemma LastSeparatorSplits(x: string, p: string, y: string, q: string)
    requires SEPARATOR !in p && SEPARATOR !in q
    requires x + "_" + p == y + "_" + q
    ensures x == y && p == q
  {
    LastSeparator(x, p);
    LastSeparator(y, q);
    assert |x| == |y|;
  }

  lemma DefaultIdIsInjective(domain: string, c: string, m: nat, d: string, n: nat)
    requires DefaultId(domain, c, m) == DefaultId(domain, d, n)
    ensures c == d && m == n
  {
    DecimalHasNoSeparator(m);
    DecimalHasNoSeparator(n);
    var x, y := domain + "_" + c, domain + "_" + d;
    LastSeparatorSplits(x, Decimal(m), y, Decimal(n));
    assert x[|domain| + 1..] == c && y[|domain| + 1..] == d;
    DecimalIsInjective(m, n);
  }

  // An id handed out for later requests carries a counter above the present one.
  lemma {:induction false} LaterIds(domain: string, counts: map<string, nat>, requests: seq<string>, k: nat)
    requires k < |requests|
    ensures |Ids(domain, counts, requests)| == |requests|
    ensures exists n :: n > CountOf(counts, requests[k])
              && Ids(domain, counts, requests)[k] == DefaultId(domain, requests[k], n)
    decreases |requests|
  {
    var c := requests[0];
    if k > 0 {
      LaterIds(domain, Counted(counts, c), requests[1..], k - 1);
    } else if |requests| > 1 {
      LaterIds(domain, Counted(counts, c), requests[1..], 0);
    }
  }

  // Over any sequence of requests for any classes, all ids differ.
  lemma {:induction false} IdsAreDistinct(domain: string, counts: map<string, nat>, requests: seq<string>, i: nat, j: nat)
    requires i < j < |requests|
    ensures |Ids(domain, counts, requests)| == |requests|
    ensures Ids(domain, counts, requests)[i] != Ids(domain, counts, requests)[j]
    decreases |requests|
  {
    var c := requests[0];
    var rest := Ids(domain, Counted(counts, c), requests[1..]);
    LaterIds(domain, Counted(counts, c), requests[1..], j - 1);
    if i > 0 {
      IdsAreDistinct(domain, Counted(counts, c), requests[1..], i - 1, j - 1);
    } else {
      var n :| n > CountOf(Counted(counts, c), requests[j]) && rest[j - 1] == DefaultId(domain, requests[j], n);
      if DefaultId(domain, c, CountOf(counts, c) + 1) == rest[j - 1] {
        DefaultIdIsInjective(domain, c, CountOf(counts, c) + 1, requests[j], n);
      }
    }
  }
}
