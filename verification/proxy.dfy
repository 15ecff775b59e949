/** `validate_proxy`: the pattern
      ^(http://|https://)([A-Za-z0-9.-]+\.[A-Za-z]{2,}|localhost)(:[0-9]{1,5})?$
    read two ways: as the set of strings the pattern can match (a
    decomposition of the subject into scheme, host, optional port and what
    `$` leaves), and as a deterministic left-to-right checker. */
module ProxyValidator {
  import opened Wrappers
  import opened Text
  import opened Regex

  /** `(http://|https://)` */
  predicate IsScheme(t: string) {
    t == "http://" || t == "https://"
  }

  /** `[A-Za-z0-9.-]+\.[A-Za-z]{2,}` read literally: a non-empty run of host
      characters, a dot, then two or more ASCII letters. */
  ghost predicate IsDottedHost(h: string) {
    exists d :: 0 < d < |h| - 2 && h[d] == '.' && AllIn(h[..d], IsHostChar) && AllIn(h[d + 1..], IsAsciiLetter)
  }

  /** The host alternative of the pattern. */
  ghost predicate IsHost(h: string) {
    IsDottedHost(h) || h == "localhost"
  }

  /** `(:[0-9]{1,5})?` — no range check on the port number. */
  predicate IsPortSuffix(p: string) {
    p == "" || (2 <= |p| <= 6 && p[0] == ':' && AllIn(p[1..], IsAsciiDigit))
  }

  /** `host(:port)?`: a host followed by an optional port suffix. */
  ghost predicate IsHostPort(b: string) {
    exists j :: 0 <= j <= |b| && IsHost(b[..j]) && IsPortSuffix(b[j..])
  }

  /** `host(:port)?$`: a host and optional port, then what `$` allows. */
  ghost predicate IsAnchoredHostPort(t: string) {
    exists k :: 0 <= k <= |t| && IsHostPort(t[..k]) && DollarTail(t[k..])
  }

  /** The strings the whole anchored pattern matches: one of the two
      schemes, then the anchored host and port. */
  ghost predicate ProxyGrammar(s: string) {
    exists i :: 0 <= i <= |s| && IsScheme(s[..i]) && IsAnchoredHostPort(s[i..])
  }

  /** The host test as backtracking resolves it: only host characters, and
      the last dot is not the first character and is followed by at least
      two ASCII letters. */
  function HostOk(h: string): bool {
    || h == "localhost"
    || (AllIn(h, IsHostChar) &&
        match LastIndexOf(h, '.')
        case None => false
        case Some(d) => 0 < d < |h| - 2 && AllIn(h[d + 1..], IsAsciiLetter))
  }

  /** Host, then optional port: the port, if any, starts at the first colon. */
  function HostPortOk(b: string): bool {
    match FirstIndexOf(b, ':')
    case None => HostOk(b)
    case Some(i) => HostOk(b[..i]) && IsPortSuffix(b[i..])
  }

  /** The first colon splits host from port. */
  lemma ColonAt(b: string, i: nat)
    requires i < |b| && b[i] == ':' && ':' !in b[..i]
    ensures HostPortOk(b) <==> HostOk(b[..i]) && IsPortSuffix(b[i..])
  {
    FirstIndexOfAt(b, ':', i);
  }

  /** A colon-free host followed by a port suffix splits there. */
  lemma HostThenPort(h: string, p: string)
    requires ':' !in h && |p| > 0 && p[0] == ':'
    ensures HostPortOk(h + p) <==> HostOk(h) && IsPortSuffix(p)
  {
    assert (h + p)[..|h|] == h;
    assert (h + p)[|h|..] == p;
    ColonAt(h + p, |h|);
  }

  /** Executable `validate_proxy`. */
  function ValidateProxy(s: string): bool {
    if HasPrefix(s, "http://") then HostPortOk(DropFinalNewline(s[7..]))
    else if HasPrefix(s, "https://") then HostPortOk(DropFinalNewline(s[8..]))
    else false
  }

  /** A host matched by the literal pattern passes the last-dot test. */
  lemma DottedHostPassesLastDot(h: string)
    requires IsDottedHost(h)
    ensures HostOk(h)
  {
    var d :| 0 < d < |h| - 2 && h[d] == '.' && AllIn(h[..d], IsHostChar) && AllIn(h[d + 1..], IsAsciiLetter);
    AllInExcludes(h[d + 1..], IsAsciiLetter, '.');
    LastIndexOfAt(h, '.', d);
    forall i | 0 <= i < |h| ensures IsHostChar(h[i]) {
      if i < d {
        assert h[i] == h[..d][i];
      } else if i > d {
        assert h[i] == h[d + 1..][i - d - 1];
      }
    }
  }

  /** A host passing the last-dot test splits at that dot as the pattern requires. */
  lemma LastDotHostIsDotted(h: string)
    requires HostOk(h) && h != "localhost"
    ensures IsDottedHost(h)
  {
    var d := LastIndexOf(h, '.').value;
    forall i | 0 <= i < d ensures IsHostChar(h[..d][i]) {
      assert h[..d][i] == h[i];
    }
  }

  /** The last-dot reading of the host rule is the pattern's host rule. */
  lemma HostOkCorrect(h: string)
    ensures HostOk(h) <==> IsHost(h)
  {
    if h != "localhost" {
      if IsDottedHost(h) {
        DottedHostPassesLastDot(h);
      }
      if HostOk(h) {
        LastDotHostIsDotted(h);
      }
    }
  }

  /** A host never contains a colon, so the port begins at the first colon. */
  lemma HostHasNoColon(h: string)
    requires IsHost(h)
    ensures ':' !in h
  {
    HostOkCorrect(h);
    if h != "localhost" {
      AllInExcludes(h, IsHostChar, ':');
    }
  }

  /** A host followed by a port suffix passes the host-and-port checker. */
  lemma HostPortComplete(b: string, j: nat)
    requires j <= |b| && IsHost(b[..j]) && IsPortSuffix(b[j..])
    ensures HostPortOk(b)
  {
    HostHasNoColon(b[..j]);
    HostOkCorrect(b[..j]);
    if j == |b| {
      assert b[..j] == b;
    } else {
      assert b[j] == b[j..][0];
      FirstIndexOfAt(b, ':', j);
    }
  }

  /** The host-and-port checker accepts exactly a host followed by a port suffix. */
  lemma HostPortOkCorrect(b: string)
    ensures HostPortOk(b) <==> IsHostPort(b)
  {
    if IsHostPort(b) {
      var j :| 0 <= j <= |b| && IsHost(b[..j]) && IsPortSuffix(b[j..]);
      HostPortComplete(b, j);
    }
    if HostPortOk(b) {
      match FirstIndexOf(b, ':')
      case None =>
        assert b[..|b|] == b;
        HostOkCorrect(b);
        assert IsPortSuffix(b[|b|..]);
      case Some(i) =>
        HostOkCorrect(b[..i]);
    }
  }

  /** A host-and-port body never contains a line feed. */
  lemma HostPortHasNoNewline(b: string)
    requires IsHostPort(b)
    ensures '\n' !in b
  {
    var j :| 0 <= j <= |b| && IsHost(b[..j]) && IsPortSuffix(b[j..]);
    HostHasNoNewline(b[..j]);
    PortHasNoNewline(b[j..]);
    assert b == b[..j] + b[j..];
  }

  lemma HostHasNoNewline(h: string)
    requires IsHost(h)
    ensures '\n' !in h
  {
    HostOkCorrect(h);
    if h != "localhost" {
      AllInExcludes(h, IsHostChar, '\n');
    }
  }

  lemma PortHasNoNewline(p: string)
    requires IsPortSuffix(p)
    ensures '\n' !in p
  {
    if p != "" {
      AllInExcludes(p[1..], IsAsciiDigit, '\n');
      assert p == [':'] + p[1..];
    }
  }


  /** After the scheme, the checker tests the text without its final line
      feed; that is exactly the anchored host-and-port rule. */
  lemma AnchoredHostPortCorrect(t: string)
    ensures HostPortOk(DropFinalNewline(t)) <==> IsAnchoredHostPort(t)
  {
    var b := DropFinalNewline(t);
    HostPortOkCorrect(b);
    if IsAnchoredHostPort(t) {
      var k :| 0 <= k <= |t| && IsHostPort(t[..k]) && DollarTail(t[k..]);
      HostPortHasNoNewline(t[..k]);
      DollarBoundary(t, k);
    }
    if HostPortOk(b) {
      assert t[..|b|] == b;
    }
  }

  /** The scheme alternatives fix where the host starts, and cannot both apply. */
  lemma SchemeLength(s: string, i: nat)
    requires i <= |s| && IsScheme(s[..i])
    ensures i == 7 ==> HasPrefix(s, "http://")
    ensures i == 8 ==> HasPrefix(s, "https://") && !HasPrefix(s, "http://")
    ensures i == 7 || i == 8
  {
    if i == 8 {
      assert s[4] == s[..8][4] == 's';
    }
  }

  /** The executable checker accepts exactly the strings the pattern matches. */
  lemma ValidateProxyCorrect(s: string)
    ensures ValidateProxy(s) <==> ProxyGrammar(s)
  {
    if ProxyGrammar(s) {
      var i :| 0 <= i <= |s| && IsScheme(s[..i]) && IsAnchoredHostPort(s[i..]);
      SchemeLength(s, i);
      AnchoredHostPortCorrect(s[i..]);
    }
    if ValidateProxy(s) {
      var i := if HasPrefix(s, "http://") then 7 else 8;
      assert IsScheme(s[..i]);
      AnchoredHostPortCorrect(s[i..]);
    }
  }

  /** `example.com` is a dotted host with no port. */
  lemma ExampleDotComHost(b: string)
    requires b == "example.com"
    ensures HostOk(b) && ':' !in b
  {
    LastIndexOfAt(b, '.', 7);
    assert b[8..] == "com";
    ExampleHostChars(b);
  }

  lemma ExampleHostChars(b: string)
    requires b == "example.com"
    ensures AllIn(b, IsHostChar)
  {
  }

  /** A plain domain name after the scheme is accepted. */
  lemma AcceptsDomain(s: string)
    requires s == "http://example.com"
    ensures ValidateProxy(s)
  {
    assert HasPrefix(s, "http://");
    assert s[7..] == "example.com";
    ExampleDotComHost(s[7..]);
  }

  /** `$` lets one final line feed through. */
  lemma AcceptsFinalLineFeed(s: string)
    requires s == "http://example.com\n"
    ensures ValidateProxy(s)
  {
    assert HasPrefix(s, "http://");
    assert s[7..][..|s[7..]| - 1] == "example.com";
    ExampleDotComHost("example.com");
  }

  /** `localhost` with a port. */
  lemma LocalhostWithPort(b: string)
    requires b == "localhost:3128"
    ensures HostPortOk(b)
  {
    var h, p := b[..9], b[9..];
    assert h == "localhost";
    assert p == ":3128";
    assert b == h + p;
    LocalhostThenPort(h, p);
  }

  lemma LocalhostThenPort(h: string, p: string)
    requires h == "localhost" && p == ":3128"
    ensures HostPortOk(h + p)
  {
    HostThenPort(h, p);
    assert AllIn(p[1..], IsAsciiDigit);
  }

  /** `localhost` is the one host without a dot that is accepted. */
  lemma AcceptsLocalhost(s: string)
    requires s == "http://localhost:3128"
    ensures ValidateProxy(s)
  {
    assert HasPrefix(s, "http://");
    assert s[7..] == "localhost:3128";
    LocalhostWithPort(s[7..]);
  }

  /** A numeric address is rejected: its last label is not letters. */
  lemma RejectsNumericHost(s: string)
    requires s == "https://10.0.0.1:8080"
    ensures !ValidateProxy(s)
  {
    assert !HasPrefix(s, "http://") by { assert s[..7][4] == 's'; }
    assert HasPrefix(s, "https://");
    var b := s[8..];
    var h, p := b[..8], b[8..];
    assert h == "10.0.0.1";
    assert p == ":8080";
    assert b == h + p;
    NoFinalNewline(b);
    NumericHostWithPort(h, p);
  }

  lemma NumericHostWithPort(h: string, p: string)
    requires h == "10.0.0.1" && p == ":8080"
    ensures !HostPortOk(h + p)
  {
    HostThenPort(h, p);
    assert h[7..] == "1";
    LastIndexOfAt(h, '.', 6);
  }

  /** Six port digits are one too many. */
  lemma RejectsLongPort(s: string)
    requires s == "http://example.com:123456"
    ensures !ValidateProxy(s)
  {
    assert HasPrefix(s, "http://");
    var b := s[7..];
    var h, p := b[..11], b[11..];
    assert h == "example.com";
    assert p == ":123456";
    assert b == h + p;
    NoFinalNewline(b);
    LongPort(h, p);
  }

  lemma LongPort(h: string, p: string)
    requires h == "example.com" && p == ":123456"
    ensures !HostPortOk(h + p)
  {
    HostThenPort(h, p);
  }

  /** Only the two lower-case schemes are recognised. */
  lemma RejectsOtherScheme(s: string)
    requires s == "ftp://example.com"
    ensures !ValidateProxy(s)
  {
    assert !HasPrefix(s, "http://") by { assert s[..7][0] == 'f'; }
    assert !HasPrefix(s, "https://") by { assert s[..8][0] == 'f'; }
  }
}
