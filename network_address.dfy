/**
 * Connection strings of the network manager (src/network/NetworkManager.cpp):
 * the "runic:ip:port?password" text getNetworkInfo hands out, the
 * "url?password" form used through a tunnel, parseConnectionString that
 * takes either apart again, and displayNameFor.
 *
 * hasUrlScheme is defined outside the shown code; it is a parameter here.
 */
module NetworkAddress {
  import opened CTypes
  import opened Wrappers

  const RunicPrefix: CString := "runic:"

  /** What parseConnectionString writes to its three out-parameters. */
  datatype Endpoint = Endpoint(server: CString, port: u16, password: CString)

  /** The position of the first `c` in `s`, or |s| when there is none (std::string::npos). */
  function Find(s: CString, c: CChar): (r: nat)
    ensures r <= |s|
    ensures r < |s| ==> s[r] == c
    ensures forall k :: 0 <= k < r ==> s[k] != c
  {
    if s == [] then 0
    else if s[0] == c then 0
    else 1 + Find(s[1..], c)
  }

  /** The first index at or after `i` that is not white space. */
  function SkipSpace(s: CString, i: nat): (r: nat)
    requires i <= |s|
    ensures i <= r <= |s|
    ensures forall k :: i <= k < r ==> IsSpace(s[k])
    ensures r < |s| ==> !IsSpace(s[r])
    decreases |s| - i
  {
    if i < |s| && IsSpace(s[i]) then SkipSpace(s, i + 1) else i
  }

  /** The end of the run of decimal digits starting at `i`. */
  function DigitsEnd(s: CString, i: nat): (r: nat)
    requires i <= |s|
    ensures i <= r <= |s|
    ensures forall k :: i <= k < r ==> IsDigit(s[k])
    ensures r < |s| ==> !IsDigit(s[r])
    decreases |s| - i
  {
    if i < |s| && IsDigit(s[i]) then DigitsEnd(s, i + 1) else i
  }

  /**
   * std::stoi: leading white space, an optional sign, then at least one
   * decimal digit (anything after the digits is ignored). No digits, or a
   * value outside the range of int, throws; None stands for the exception.
   */
  function StoI(s: CString): (r: Option<int32>)
    ensures r.Some? ==> exists k :: 0 <= k < |s| && IsDigit(s[k])
  {
    var i := SkipSpace(s, 0);
    var negative := i < |s| && s[i] == '-';
    var j := if i < |s| && (s[i] == '-' || s[i] == '+') then i + 1 else i;
    var e := DigitsEnd(s, j);
    if e == j then None
    else
      var magnitude: int := DigitsValue(s[j..e]);
      var v := if negative then -magnitude else magnitude;
      assert IsDigit(s[j]);
      if -0x8000_0000 <= v < 0x8000_0000 then Some(v) else None
  }

  /** static_cast<unsigned short> of an int: the value modulo 2^16. */
  function ToU16(v: int32): (r: u16)
    ensures 0 <= v < 0x1_0000 ==> r == v
    ensures (r - v) % 0x1_0000 == 0
  {
    v % 0x1_0000
  }

  /** The text after a leading "runic:", or all of it. */
  function StripRunic(s: CString): (r: CString)
    ensures RunicPrefix <= s ==> r == s[|RunicPrefix|..]
    ensures !(RunicPrefix <= s) ==> r == s
  {
    if RunicPrefix <= s then s[|RunicPrefix|..] else s
  }

  /**
   * parseConnectionString: after a leading "runic:" is dropped, the text
   * after the first '?' is the password; a left part with a URL scheme is
   * the server as a whole (port 0); otherwise it splits at its first ':'
   * into the server and a port that is 0 when stoi throws, and with no ':'
   * it is the server with port 0.
   */
  function ParseConnectionString(connectionString: CString, hasUrlScheme: CString -> bool): (r: Endpoint)
    ensures var rest := StripRunic(connectionString);
      var q := Find(rest, '?');
      && r.password == (if q < |rest| then rest[q + 1..] else [])
      && (hasUrlScheme(rest[..q]) ==> r.server == rest[..q] && r.port == 0)
      && (!hasUrlScheme(rest[..q]) ==>
            r.server == rest[..q][..Find(rest[..q], ':')]
            && (Find(rest[..q], ':') == q ==> r.port == 0)
            && (Find(rest[..q], ':') < q ==>
                  var digits := rest[..q][Find(rest[..q], ':') + 1..];
                  r.port == if StoI(digits).Some? then ToU16(StoI(digits).value) else 0))
  {
    var rest := StripRunic(connectionString);
    var q := Find(rest, '?');
    var left := rest[..q];
    var password := if q < |rest| then rest[q + 1..] else [];
    if hasUrlScheme(left) then Endpoint(left, 0, password)
    else
      var colon := Find(left, ':');
      if colon < |left| then
        var port := match StoI(left[colon + 1..]) case Some(v) => ToU16(v) case None => 0;
        Endpoint(left[..colon], port, password)
      else
        Endpoint(left, 0, password)
  }

  /** ConnectionType: LAN, public IP, tunnel, or any other value of the enum. */
  datatype ConnectionType = Local | External | LocalTunnel | OtherType

  /**
   * getNetworkInfo: "runic:" + ip + ":" + port + "?" + password for the
   * LAN and public addresses, the tunnel URL + "?" + password through the
   * tunnel, and the empty string for any other type. The addresses are
   * looked up outside this model and passed in.
   */
  function NetworkInfo(kind: ConnectionType, localIp: CString, externalIp: CString, tunnelUrl: CString,
                       port: u16, password: CString): (r: CString)
    ensures kind == OtherType <==> r == []
    ensures kind == Local ==> RunicPrefix + localIp <= r
    ensures kind == External ==> RunicPrefix + externalIp <= r
    ensures kind == LocalTunnel ==> tunnelUrl <= r
    ensures kind != OtherType ==> |r| > |password| && r[|r| - |password| - 1] == '?' && r[|r| - |password|..] == password
  {
    match kind
    case Local => RunicPrefix + localIp + ":" + PortText(port) + "?" + password
    case External => RunicPrefix + externalIp + ":" + PortText(port) + "?" + password
    case LocalTunnel => tunnelUrl + "?" + password
    case OtherType => []
  }

  /** std::to_string of a port, as std::string characters. */
  function PortText(port: u16): (r: CString)
    ensures |r| >= 1 && forall k :: 0 <= k < |r| ==> IsDigit(r[k])
    ensures r == DecimalString(port)
  {
    var d := DecimalString(port);
    seq(|d|, k requires 0 <= k < |d| => assert IsDigit(d[k]); d[k] as CChar)
  }

  /** Digits are read back by stoi as the number they denote. */
  lemma {:induction false} StoIDigits(d: CString)
    requires d != [] && forall k :: 0 <= k < |d| ==> IsDigit(d[k])
    requires DigitsValue(d) < 0x8000_0000
    ensures StoI(d) == Some(DigitsValue(d))
  {
    assert !IsSpace(d[0]) && d[0] != '-' && d[0] != '+';
    assert SkipSpace(d, 0) == 0;
    assert DigitsEnd(d, 0) == |d|;
    assert d[0..|d|] == d;
  }

  /**
   * A LAN or public address string is read back as the address, the port
   * and the password it was built from, as long as the address holds no
   * ':' or '?' and does not look like a URL.
   */
  lemma {:induction false} AddressRoundTrip(ip: CString, port: u16, password: CString, hasUrlScheme: CString -> bool)
    requires ':' !in ip && '?' !in ip
    requires !hasUrlScheme(ip + ":" + PortText(port))
    ensures ParseConnectionString(NetworkInfo(Local, ip, ip, [], port, password), hasUrlScheme) == Endpoint(ip, port, password)
    ensures ParseConnectionString(NetworkInfo(External, ip, ip, [], port, password), hasUrlScheme) == Endpoint(ip, port, password)
  {
    var digits := PortText(port);
    var left := ip + ":" + digits;
    var rest := left + "?" + password;
    var cs := RunicPrefix + rest;
    assert NetworkInfo(Local, ip, ip, [], port, password) == cs;
    assert NetworkInfo(External, ip, ip, [], port, password) == cs;
    StripStep(rest);
    SplitAt(left, '?', password);
    SplitAt(ip, ':', digits);
    DecimalStringValue(port);
    StoIDigits(digits);
    ParseHostPort(cs, rest, left, ip, digits, password, port, hasUrlScheme);
  }

  lemma {:induction false} StripStep(rest: CString)
    ensures StripRunic(RunicPrefix + rest) == rest
  {
    assert (RunicPrefix + rest)[|RunicPrefix|..] == rest;
  }

  /** `s + [c] + t` splits at its first `c` into `s` and `t` when `s` holds none. */
  lemma {:induction false} SplitAt(s: CString, c: CChar, t: CString)
    requires c !in s
    ensures var u := s + [c] + t; Find(u, c) == |s| && u[..|s|] == s && u[|s| + 1..] == t
  {
    var u := s + [c] + t;
    assert u[|s|] == c;
    assert forall k :: 0 <= k < |s| ==> u[k] == s[k];
    assert u[..|s|] == s && u[|s| + 1..] == t;
  }

  /** parseConnectionString on a string whose parts have been located. */
  lemma {:induction false} ParseHostPort(cs: CString, rest: CString, left: CString, ip: CString, digits: CString,
                                         password: CString, port: u16, hasUrlScheme: CString -> bool)
    requires StripRunic(cs) == rest && rest == left + ['?'] + password && left == ip + [':'] + digits
    requires Find(rest, '?') == |left| && rest[..|left|] == left && rest[|left| + 1..] == password
    requires Find(left, ':') == |ip| && left[..|ip|] == ip && left[|ip| + 1..] == digits
    requires !hasUrlScheme(left) && StoI(digits) == Some(port as int32)
    ensures ParseConnectionString(cs, hasUrlScheme) == Endpoint(ip, port, password)
  {
  }

  /**
   * A tunnel string is read back as the URL and the password, with port 0,
   * when the URL holds no '?', has a URL scheme and does not start with
   * "runic:".
   */
  lemma {:induction false} TunnelRoundTrip(url: CString, port: u16, password: CString, hasUrlScheme: CString -> bool)
    requires '?' !in url && hasUrlScheme(url) && !(RunicPrefix <= url)
    ensures ParseConnectionString(NetworkInfo(LocalTunnel, [], [], url, port, password), hasUrlScheme) == Endpoint(url, 0, password)
  {
    var s := url + "?" + password;
    assert !(RunicPrefix <= s) by {
      if |url| >= |RunicPrefix| {
        assert s[..|RunicPrefix|] == url[..|RunicPrefix|];
      } else {
        assert s[|url|] == '?' && RunicPrefix[|url|] != '?';
      }
    }
    SplitAt(url, '?', password);
  }

  /** Without a '?' the password is empty, and without a scheme or ':' the whole rest is the server on port 0. */
  lemma {:induction false} BareHost(host: CString, hasUrlScheme: CString -> bool)
    requires '?' !in host && ':' !in host && !hasUrlScheme(host)
    ensures ParseConnectionString(host, hasUrlScheme) == Endpoint(host, 0, [])
  {
    assert !(RunicPrefix <= host) by {
      if |host| >= |RunicPrefix| {
        assert host[5] != ':' && RunicPrefix[5] == ':';
      }
    }
    assert host[..|host|] == host;
  }

  /** displayNameFor: the peer's username, else the signalling client's, else the raw id. */
  function DisplayNameFor(peerUsernames: map<CString, CString>, clientUsernames: map<CString, CString>, id: CString): (r: CString)
    ensures id in peerUsernames ==> r == peerUsernames[id]
    ensures id !in peerUsernames && id in clientUsernames ==> r == clientUsernames[id]
    ensures id !in peerUsernames && id !in clientUsernames ==> r == id
  {
    if id in peerUsernames then peerUsernames[id]
    else if id in clientUsernames then clientUsernames[id]
    else id
  }
}
