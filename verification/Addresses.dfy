/** Host and port joining (src/util/addr.go, with net.JoinHostPort and strconv.Itoa), and the key under which
    probe items are merged (src/edge/bootstrap.go). */
module Addresses {

  const OPEN := '['
  const CLOSE := ']'

  function TrimPrefix(s: string, c: char): string {
    if s != "" && s[0] == c then s[1..] else s
  }

  function TrimSuffix(s: string, c: char): string {
    if s != "" && s[|s| - 1] == c then s[..|s| - 1] else s
  }

  /** The host without one pair of brackets. */
  function Bare(host: string): string {
    TrimSuffix(TrimPrefix(host, OPEN), CLOSE)
  }

  function Digit(d: nat): (c: char)
    requires d < 10
    ensures '0' <= c <= '9'
  {
    '0' + d as char
  }

  function Digits(n: nat): (s: string)
    ensures |s| > 0 && forall c :: c in s ==> '0' <= c <= '9'
  {
    if n < 10 then [Digit(n)] else Digits(n / 10) + [Digit(n % 10)]
  }

  function Itoa(n: int): (s: string)
    ensures forall c :: c in s ==> '0' <= c <= '9' || c == '-'
  {
    if n < 0 then "-" + Digits(-n) else Digits(n)
  }

  /** net.JoinHostPort: a host with a colon is an IPv6 literal and goes into brackets. */
  function Wrapped(host: string): string {
    if ':' in host then "[" + host + "]" else host
  }

  function JoinHostPort(host: string, port: int): string {
    Wrapped(Bare(host)) + ":" + Itoa(port)
  }

  function ItemKey(ip: string, port: int, proto: string): string {
    JoinHostPort(ip, port) + "/" + proto
  }

  function LastIndex(s: string, c: char): int {
    if s == "" then -1 else if s[|s| - 1] == c then |s| - 1 else LastIndex(s[..|s| - 1], c)
  }

  lemma {:induction false} LastIndexOfSeparator(a: string, b: string, c: char)
    requires c !in b
    ensures LastIndex(a + [c] + b, c) == |a|
  {
    var s := a + [c] + b;
    if b != "" {
      assert s[..|s| - 1] == a + [c] + b[..|b| - 1];
      LastIndexOfSeparator(a, b[..|b| - 1], c);
    }
  }

  /** Text splits in one way only at the last occurrence of a separator. */
  lemma SplitAtLast(a: string, b: string, x: string, y: string, c: char)
    requires c !in b && c !in y && a + [c] + b == x + [c] + y
    ensures a == x && b == y
  {
    LastIndexOfSeparator(a, b, c);
    LastIndexOfSeparator(x, y, c);
    var s, t := a + [c] + b, x + [c] + y;
    assert a == s[..|a|] && x == t[..|x|] && b == s[|a| + 1..] && y == t[|x| + 1..];
  }

  lemma {:induction false} DigitsInjective(m: nat, n: nat)
    requires Digits(m) == Digits(n)
    ensures m == n
  {
    var s, t := Digits(m), Digits(n);
    assert s[|s| - 1] == Digit(m % 10) && t[|t| - 1] == Digit(n % 10);
    if m >= 10 && n >= 10 {
      assert Digits(m / 10) == s[..|s| - 1] && Digits(n / 10) == t[..|t| - 1];
      DigitsInjective(m / 10, n / 10);
    }
  }

  lemma ItoaSign(n: int)
    ensures Itoa(n) != "" && (Itoa(n)[0] == '-' <==> n < 0)
  {
    if n >= 0 {
      assert Digits(n)[0] in Digits(n);
    }
  }

  lemma ItoaInjective(m: int, n: int)
    requires Itoa(m) == Itoa(n)
    ensures m == n
  {
    ItoaSign(m);
    ItoaSign(n);
    if m < 0 {
      assert Itoa(m)[1..] == Digits(-m) && Itoa(n)[1..] == Digits(-n);
      DigitsInjective(-m, -n);
    } else {
      DigitsInjective(m, n);
    }
  }

  /** Wrapping keeps hosts apart: a bare host that looks wrapped has no colon, a wrapped one has. */
  lemma WrappedInjective(g: string, h: string)
    requires Wrapped(g) == Wrapped(h)
    ensures g == h
  {
    if ':' in g {
      assert Wrapped(g)[1..|Wrapped(g)| - 1] == g;
      assert forall i :: 0 <= i < |g| ==> Wrapped(g)[i + 1] == g[i];
    }
    if ':' in h {
      assert Wrapped(h)[1..|Wrapped(h)| - 1] == h;
      assert forall i :: 0 <= i < |h| ==> Wrapped(h)[i + 1] == h[i];
    }
  }

  predicate Slashless(proto: string) {
    '/' !in proto
  }

  /** Two items share a probe exactly when their bare host, port and protocol agree, as long as no protocol
      name holds a slash (tcp, udp and icmp do not). */
  lemma KeysAgreeExactly(ip: string, port: int, proto: string, ip2: string, port2: int, proto2: string)
    requires Slashless(proto) && Slashless(proto2)
    ensures ItemKey(ip, port, proto) == ItemKey(ip2, port2, proto2) <==> Bare(ip) == Bare(ip2) && port == port2 && proto == proto2
  {
    if ItemKey(ip, port, proto) == ItemKey(ip2, port2, proto2) {
      SplitAtLast(JoinHostPort(ip, port), proto, JoinHostPort(ip2, port2), proto2, '/');
      SplitAtLast(Wrapped(Bare(ip)), Itoa(port), Wrapped(Bare(ip2)), Itoa(port2), ':');
      ItoaInjective(port, port2);
      WrappedInjective(Bare(ip), Bare(ip2));
    }
  }

  /** An address is host, colon and port; a host with a colon stands in one pair of brackets, as it must to be
      read back. */
  lemma JoinedForm(host: string, port: int)
    ensures var host1 := Bare(host);
            JoinHostPort(host, port) == (if ':' in host1 then "[" + host1 + "]:" else host1 + ":") + Itoa(port)
  {
    var host1 := Bare(host);
    assert ("[" + host1 + "]") + ":" == "[" + host1 + "]:";
  }

  /** The brackets of an IPv6 literal do not matter. */
  lemma BracketsDoNotMatter(host: string, port: int)
    requires Bare(host) == host
    ensures JoinHostPort("[" + host + "]", port) == JoinHostPort(host, port)
  {
    var h := "[" + host + "]";
    assert TrimPrefix(h, OPEN) == host + "]";
    assert TrimSuffix(host + "]", CLOSE) == host;
  }
}
