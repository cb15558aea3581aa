/** IPv4 networks as Python's ipaddress module reads them, and the driver's three
    textual forms: CIDR prefix, address/dotted-mask, and a bare address. */
module Net {
  import opened Results
  import opened Text

  const SPACE := 0x1_0000_0000

  function Pow2(n: nat): (r: nat)
    ensures r >= 1
  {
    if n == 0 then 1 else 2 * Pow2(n - 1)
  }

  /** A network address with its prefix length. */
  datatype Network = Network(address: nat, prefix: nat)

  /** Host bits clear. */
  predicate Canonical(n: Network)
  {
    n.prefix <= 32 && n.address < SPACE && Floor(n.address, 32 - n.prefix) == n.address
  }

  // ---- bit arithmetic ----

  /** Bitwise conjunction. */
  function And(a: nat, b: nat): nat
  {
    if a == 0 || b == 0 then 0 else 2 * And(a / 2, b / 2) + (if a % 2 == 1 && b % 2 == 1 then 1 else 0)
  }

  /** `high` ones above `low` zeros. */
  function Ones(low: nat, high: nat): nat
    decreases low, high
  {
    if low > 0 then 2 * Ones(low - 1, high)
    else if high > 0 then 2 * Ones(0, high - 1) + 1
    else 0
  }

  /** The netmask of a prefix length. */
  function Mask(prefix: nat): nat
    requires prefix <= 32
  {
    Ones(32 - prefix, prefix)
  }

  /** A number with its `low` lowest bits cleared. */
  function Floor(a: nat, low: nat): nat
  {
    if low == 0 then a else 2 * Floor(a / 2, low - 1)
  }

  function ShiftRight(n: nat, k: nat): nat
  {
    if k == 0 then n else ShiftRight(n / 2, k - 1)
  }

  function TrailingZeros(n: nat, bits: nat): (r: nat)
    ensures r <= bits
  {
    if bits == 0 || n % 2 == 1 then 0 else 1 + TrailingZeros(n / 2, bits - 1)
  }

  /** Prefix length of a netmask, if it is a run of ones above a run of zeros. */
  function PrefixOfMask(mask: nat): (r: Option<nat>)
    ensures r.Some? ==> r.value <= 32
  {
    var zeros := TrailingZeros(mask, 32);
    if ShiftRight(mask, zeros) == Pow2(32 - zeros) - 1 then Some(32 - zeros) else None
  }

  lemma Pow2Byte(n: nat)
    requires n >= 8
    ensures Pow2(n) == 256 * Pow2(n - 8)
  {
    assert Pow2(n) == 2 * Pow2(n - 1) == 4 * Pow2(n - 2) == 8 * Pow2(n - 3) == 16 * Pow2(n - 4);
    assert Pow2(n - 4) == 2 * Pow2(n - 5) == 4 * Pow2(n - 6) == 8 * Pow2(n - 7) == 16 * Pow2(n - 8);
  }

  lemma Pow2Of32(n: nat)
    requires n == 32
    ensures Pow2(n) == SPACE
  {
    Pow2Byte(n);
    Pow2Byte(n - 8);
    Pow2Byte(n - 16);
    Pow2Byte(n - 24);
  }

  lemma {:induction false} AndOnes(a: nat, low: nat, high: nat)
    requires a < Pow2(low + high)
    ensures And(a, Ones(low, high)) == Floor(a, low)
    decreases low, high
  {
    if low > 0 {
      AndOnes(a / 2, low - 1, high);
      AndDouble(a, Ones(low - 1, high));
    } else if high > 0 {
      AndOnes(a / 2, 0, high - 1);
    }
  }

  lemma AndDouble(a: nat, b: nat)
    ensures And(a, 2 * b) == 2 * And(a / 2, b)
  {
  }

  lemma {:induction false} FloorBounds(a: nat, low: nat)
    ensures Floor(a, low) <= a < Floor(a, low) + Pow2(low)
    ensures Floor(Floor(a, low), low) == Floor(a, low)
  {
    if low > 0 {
      FloorBounds(a / 2, low - 1);
    }
  }

  lemma {:induction false} FloorOfInterval(a: nat, x: nat, low: nat)
    requires Floor(a, low) == a <= x < a + Pow2(low)
    ensures Floor(x, low) == a
  {
    if low > 0 {
      FloorOfInterval(a / 2, x / 2, low - 1);
    }
  }

  /** The last address of a network still lies in the address space. */
  lemma {:induction false} FloorFits(a: nat, low: nat, high: nat)
    requires Floor(a, low) == a < Pow2(low + high)
    ensures a + Pow2(low) <= Pow2(low + high)
  {
    if low > 0 {
      FloorFits(a / 2, low - 1, high);
    }
  }

  /** The network an address lies in: `packed & netmask`. */
  function NetworkOf(address: nat, prefix: nat): Network
    requires address < SPACE && prefix <= 32
  {
    Network(And(address, Mask(prefix)), prefix)
  }

  lemma NetworkOfClearsHostBits(address: nat, prefix: nat)
    requires address < SPACE && prefix <= 32
    ensures NetworkOf(address, prefix) == Network(Floor(address, 32 - prefix), prefix)
    ensures Canonical(NetworkOf(address, prefix))
  {
    var low := 32 - prefix;
    Pow2Of32(low + prefix);
    AndOnes(address, low, prefix);
    FloorBounds(address, low);
  }

  lemma {:induction false} OnesShape(low: nat, high: nat)
    ensures Ones(low, high) < Pow2(low + high)
    ensures high > 0 ==> TrailingZeros(Ones(low, high), low + high) == low
    ensures high == 0 ==> TrailingZeros(Ones(low, high), low + high) == low + high
    ensures ShiftRight(Ones(low, high), low) == Pow2(high) - 1
    decreases low, high
  {
    if low > 0 {
      OnesShape(low - 1, high);
    } else if high > 0 {
      OnesShape(0, high - 1);
    }
  }

  lemma PrefixOfMaskInverts(prefix: nat)
    requires prefix <= 32
    ensures PrefixOfMask(Mask(prefix)) == Some(prefix)
    ensures Mask(prefix) < SPACE
  {
    var low := 32 - prefix;
    Pow2Of32(low + prefix);
    OnesShape(low, prefix);
  }

  // ---- decimal octets and dotted quads ----

  predicate Digit(c: char) { '0' <= c <= '9' }

  function Value(digits: string): nat
    requires forall c | c in digits :: Digit(c)
  {
    if digits == "" then 0
    else
      var last := digits[|digits| - 1];
      assert last in digits && Digit(last);
      10 * Value(digits[..|digits| - 1]) + (last as nat - '0' as nat)
  }

  predicate AllDigits(s: string)
  {
    s != "" && forall c | c in s :: Digit(c)
  }

  function ParseOctet(s: string): (r: Option<nat>)
    ensures r.Some? ==> r.value <= 255
  {
    if !AllDigits(s) || |s| > 3 || (s != "0" && s[0] == '0') then None
    else if Value(s) > 255 then None
    else Some(Value(s))
  }

  function ShowDigit(d: nat): char
    requires d < 10
  {
    ('0' as nat + d) as char
  }

  /** Decimal text of a number below 1000, without leading zeros. */
  function ShowSmall(n: nat): string
    requires n < 1000
  {
    if n < 10 then [ShowDigit(n)]
    else if n < 100 then [ShowDigit(n / 10), ShowDigit(n % 10)]
    else [ShowDigit(n / 100), ShowDigit(n / 10 % 10), ShowDigit(n % 10)]
  }

  lemma ShowSmallValue(n: nat)
    requires n < 1000
    ensures AllDigits(ShowSmall(n))
    ensures Value(ShowSmall(n)) == n
    ensures n <= 255 ==> ParseOctet(ShowSmall(n)) == Some(n)
  {
    var s := ShowSmall(n);
    if n < 10 {
      assert s[..0] == "";
    } else if n < 100 {
      var t := s[..1];
      assert t == [ShowDigit(n / 10)] && t[..0] == "";
      assert Value(t) == n / 10;
    } else {
      var t := s[..2];
      assert t == [ShowDigit(n / 100), ShowDigit(n / 10 % 10)];
      var h := t[..1];
      assert h == [ShowDigit(n / 100)] && h[..0] == "";
      assert Value(h) == n / 100;
      assert Value(t) == 10 * (n / 100) + n / 10 % 10;
    }
  }

  function Quad(a: nat, b: nat, c: nat, d: nat): nat
  {
    ((a * 256 + b) * 256 + c) * 256 + d
  }

  function ParseAddress(s: string): (r: Option<nat>)
    ensures r.Some? ==> r.value < SPACE
  {
    var parts := Split(s, '.');
    if |parts| != 4 then None
    else
      var a, b, c, d := ParseOctet(parts[0]), ParseOctet(parts[1]), ParseOctet(parts[2]), ParseOctet(parts[3]);
      if a.None? || b.None? || c.None? || d.None? then None
      else Some(Quad(a.value, b.value, c.value, d.value))
  }

  /** The k-th octet from the right. */
  function Octet(n: nat, k: nat): (r: nat)
    ensures r < 256
  {
    if k == 0 then n % 256 else Octet(n / 256, k - 1)
  }

  function Octets(n: nat): seq<string>
  {
    [ShowSmall(Octet(n, 3)), ShowSmall(Octet(n, 2)), ShowSmall(Octet(n, 1)), ShowSmall(Octet(n, 0))]
  }

  function ShowAddress(n: nat): string
  {
    Join(Octets(n), '.')
  }

  lemma QuadOfOctets(n: nat)
    requires n < SPACE
    ensures Quad(Octet(n, 3), Octet(n, 2), Octet(n, 1), Octet(n, 0)) == n
  {
    var n1 := n / 256;
    var n2 := n1 / 256;
    var n3 := n2 / 256;
    assert Octet(n, 0) == n % 256;
    assert Octet(n, 1) == n1 % 256;
    assert Octet(n, 2) == Octet(n1, 1) == n2 % 256;
    assert Octet(n, 3) == Octet(n1, 2) == Octet(n2, 1) == n3 % 256;
    hide Octet;
    assert n3 < 256;
    assert n2 == n3 * 256 + n2 % 256;
    assert n1 == n2 * 256 + n1 % 256;
    assert n == n1 * 256 + n % 256;
  }

  lemma OctetsSplit(n: nat)
    ensures Split(ShowAddress(n), '.') == Octets(n)
    ensures '/' !in ShowAddress(n)
    ensures forall k | 0 <= k < 4 :: ParseOctet(Octets(n)[k]) == Some(Octet(n, 3 - k))
  {
    forall k | 0 <= k < 4
      ensures AllDigits(Octets(n)[k]) && ParseOctet(Octets(n)[k]) == Some(Octet(n, 3 - k))
    {
      ShowSmallValue(Octet(n, 3 - k));
    }
    SplitJoin(Octets(n), '.');
    JoinFree(Octets(n), '.', '/');
  }

  lemma ShowAddressParses(n: nat)
    requires n < SPACE
    ensures ParseAddress(ShowAddress(n)) == Some(n)
    ensures '/' !in ShowAddress(n)
  {
    OctetsSplit(n);
    QuadOfOctets(n);
  }

  lemma ShowAddressDotted(n: nat)
    ensures '.' in ShowAddress(n)
    ensures !AllDigits(ShowAddress(n))
  {
    var o := Octets(n);
    assert ShowAddress(n) == o[0] + ['.'] + Join(o[1..], '.');
    assert ShowAddress(n)[|o[0]|] == '.';
  }

  // ---- networks as text ----

  /** A netmask or hostmask: digits first, then a dotted quad of either kind. */
  function ParseMask(s: string): (r: Option<nat>)
    ensures r.Some? ==> r.value <= 32
  {
    if AllDigits(s) && Value(s) <= 32 then Some(Value(s))
    else match ParseAddress(s)
      case None => None
      case Some(m) => DottedMask(m)
  }

  function DottedMask(m: nat): (r: Option<nat>)
    requires m < SPACE
    ensures r.Some? ==> r.value <= 32
  {
    if PrefixOfMask(m).Some? then PrefixOfMask(m) else PrefixOfMask(SPACE - 1 - m)
  }

  /** IPv4Network(s, strict=False); None is ValueError. */
  function Parse(s: string): (r: Option<Network>)
    ensures r.Some? ==> r.value.prefix <= 32
  {
    var parts := Split(s, '/');
    if |parts| > 2 then None
    else
      var address := ParseAddress(parts[0]);
      var prefix := if |parts| == 2 then ParseMask(parts[1]) else Some(32);
      if address.None? || prefix.None? then None else Some(NetworkOf(address.value, prefix.value))
  }

  /** str(IPv4Network) */
  function Show(n: Network): string
    requires Canonical(n)
  {
    ShowAddress(n.address) + ['/'] + ShowSmall(n.prefix)
  }

  /** '{}/{}'.format(network_address, netmask) */
  function ShowMasked(n: Network): string
    requires Canonical(n)
  {
    PrefixOfMaskInverts(n.prefix);
    ShowAddress(n.address) + ['/'] + ShowAddress(Mask(n.prefix))
  }

  lemma ParseIsCanonical(s: string)
    ensures Parse(s).Some? ==> Canonical(Parse(s).value)
  {
    var parts := Split(s, '/');
    if Parse(s).Some? {
      var prefix := if |parts| == 2 then ParseMask(parts[1]) else Some(32);
      NetworkOfClearsHostBits(ParseAddress(parts[0]).value, prefix.value);
    }
  }

  lemma ParsePair(address: nat, mask: string)
    requires address < SPACE && '/' !in mask
    ensures Parse(ShowAddress(address) + ['/'] + mask) ==
            if ParseMask(mask).Some? then Some(NetworkOf(address, ParseMask(mask).value)) else None
  {
    ShowAddressParses(address);
    SplitAt(ShowAddress(address), '/', mask);
    SplitNone(ShowAddress(address), '/');
    SplitNone(mask, '/');
  }

  lemma ShowParses(n: Network)
    requires Canonical(n)
    ensures Parse(Show(n)) == Some(n)
  {
    ShowSmallValue(n.prefix);
    assert '/' !in ShowSmall(n.prefix);
    ParsePair(n.address, ShowSmall(n.prefix));
    NetworkOfClearsHostBits(n.address, n.prefix);
  }

  lemma ShowMaskedParses(n: Network)
    requires Canonical(n)
    ensures Parse(ShowMasked(n)) == Some(n)
  {
    var mask := Mask(n.prefix);
    PrefixOfMaskInverts(n.prefix);
    ShowAddressParses(mask);
    ParsePair(n.address, ShowAddress(mask));
    NetworkOfClearsHostBits(n.address, n.prefix);
    ShowAddressDotted(mask);
  }

  // ---- the driver's helpers ----

  /** _norm_weka_ip */
  function Norm(s: string): string
  {
    ParseIsCanonical(s);
    var n := Parse(s);
    if n.Some? then Show(n.value) else s
  }

  /** _policy_ip; None is the ValueError of a malformed network. */
  function PolicyIp(s: string): Option<string>
  {
    if '/' in s then
      ParseIsCanonical(s);
      var n := Parse(s);
      if n.Some? then Some(Show(n.value)) else None
    else Some(s)
  }

  /** _cidr_to_weka_ip; None is the ValueError of a malformed network. */
  function ToWeka(s: string): Option<string>
  {
    if '/' in s then
      ParseIsCanonical(s);
      var n := Parse(s);
      if n.Some? then Some(ShowMasked(n.value)) else None
    else Some(s)
  }

  const HOST_MASK := "255.255.255.255"

  /** How the cluster echoes a client-group address. */
  function Echo(s: string): string
  {
    if '/' in s then s else s + ['/'] + HOST_MASK
  }

  /** An address lies in a network: address & netmask == network address. */
  predicate Matches(n: Network, x: nat)
    requires n.prefix <= 32
  {
    And(x, Mask(n.prefix)) == n.address
  }

  // ---- which texts are addresses, masks and networks ----

  /** An octet is the decimal text of a number up to 255, without leading zeros, and nothing else. */
  lemma ParseOctetExactly(s: string, n: nat)
    ensures ParseOctet(s) == Some(n) <==> n <= 255 && s == ShowSmall(n)
  {
    if n <= 255 {
      ShowSmallValue(n);
    }
    if ParseOctet(s) == Some(n) {
      DecimalIsShown(s);
    }
  }

  lemma DecimalIsShown(s: string)
    requires AllDigits(s) && |s| <= 3 && (s == "0" || s[0] != '0')
    ensures Value(s) < 1000 && s == ShowSmall(Value(s))
  {
    hide Value, ShowSmall, Digit;
    if |s| == 1 {
      ShowOne(s);
    } else if |s| == 2 {
      ShowTwo(s);
    } else {
      ShowThree(s);
    }
  }

  lemma DigitsAt(s: string)
    requires AllDigits(s)
    ensures forall k | 0 <= k < |s| :: Digit(s[k])
  {
    assert forall k | 0 <= k < |s| :: s[k] in s;
  }

  lemma ShowOne(s: string)
    requires AllDigits(s) && |s| == 1
    ensures Value(s) == s[0] as nat - '0' as nat < 10 && ShowSmall(Value(s)) == s
  {
    DigitsAt(s);
    assert s[..0] == "";
  }

  lemma ShowTwo(s: string)
    requires AllDigits(s) && |s| == 2 && s[0] != '0'
    ensures Value(s) < 100 && ShowSmall(Value(s)) == s
    ensures Value(s) / 10 == s[0] as nat - '0' as nat
  {
    DigitsAt(s);
    ShowOne(s[..1]);
  }

  lemma ShowThree(s: string)
    requires AllDigits(s) && |s| == 3 && s[0] != '0'
    ensures Value(s) < 1000 && ShowSmall(Value(s)) == s
  {
    DigitsAt(s);
    ShowTwo(s[..2]);
    ShowOne(s[..1]);
    var n, t := Value(s), Value(s[..2]);
    assert n == 10 * t + (s[2] as nat - '0' as nat);
    assert s[..2][..1] == s[..1] && t == 10 * (t / 10) + (s[1] as nat - '0' as nat);
    hide Value, AllDigits;
    assert n / 10 == t && n % 10 == s[2] as nat - '0' as nat;
    assert n / 100 == t / 10 && n / 10 % 10 == s[1] as nat - '0' as nat;
  }

  /** An address is four such octets with dots between them, most significant first. */
  lemma ParseAddressExactly(s: string, address: nat)
    ensures ParseAddress(s) == Some(address) <==> address < SPACE && s == ShowAddress(address)
  {
    if address < SPACE {
      ShowAddressParses(address);
    }
    if ParseAddress(s) == Some(address) {
      AddressIsShown(s);
    }
  }

  lemma AddressIsShown(s: string)
    requires ParseAddress(s).Some?
    ensures s == ShowAddress(ParseAddress(s).value)
  {
    hide ParseOctet, ShowSmall;
    var parts := Split(s, '.');
    var a, b, c, d := ParseOctet(parts[0]).value, ParseOctet(parts[1]).value, ParseOctet(parts[2]).value, ParseOctet(parts[3]).value;
    ParseOctetExactly(parts[0], a);
    ParseOctetExactly(parts[1], b);
    ParseOctetExactly(parts[2], c);
    ParseOctetExactly(parts[3], d);
    JoinSplit(s, '.');
    OctetsOfQuad(a, b, c, d);
    assert ParseAddress(s) == Some(Quad(a, b, c, d));
    hide Quad, Octets, ParseAddress;
    assert parts == [ShowSmall(a), ShowSmall(b), ShowSmall(c), ShowSmall(d)];
  }

  lemma OctetsOfQuad(a: nat, b: nat, c: nat, d: nat)
    requires a < 256 && b < 256 && c < 256 && d < 256
    ensures Octets(Quad(a, b, c, d)) == [ShowSmall(a), ShowSmall(b), ShowSmall(c), ShowSmall(d)]
  {
    var n := Quad(a, b, c, d);
    assert n / 256 == (a * 256 + b) * 256 + c && n / 256 / 256 == a * 256 + b && n / 256 / 256 / 256 == a;
    assert Octet(n, 0) == d;
    assert Octet(n, 1) == Octet(n / 256, 0) == c;
    assert Octet(n, 2) == Octet(n / 256, 1) == Octet(n / 256 / 256, 0) == b;
    assert Octet(n, 3) == Octet(n / 256, 2) == Octet(n / 256 / 256, 1) == Octet(n / 256 / 256 / 256, 0) == a;
  }

  /** The text of 10.1.2.255, for one. */
  lemma TenOneTwo()
    ensures ParseAddress("10.1.2.255") == Some(((10 * 256 + 1) * 256 + 2) * 256 + 255)
  {
    var n := Quad(10, 1, 2, 255);
    OctetsOfQuad(10, 1, 2, 255);
    var parts := ["10", "1", "2", "255"];
    assert Octets(n) == parts;
    assert parts[1..] == ["1", "2", "255"] && parts[1..][1..] == ["2", "255"] && parts[1..][1..][1..] == ["255"];
    assert Join(parts[1..][1..], '.') == "2" + ['.'] + "255";
    assert Join(parts[1..], '.') == "1" + ['.'] + Join(parts[1..][1..], '.');
    assert Join(parts, '.') == "10" + ['.'] + Join(parts[1..], '.');
    assert ShowAddress(n) == "10.1.2.255";
    ParseAddressExactly("10.1.2.255", n);
  }

  lemma {:induction false} OnesValue(h: nat)
    ensures Ones(0, h) == Pow2(h) - 1
  {
    if h > 0 {
      OnesValue(h - 1);
    }
  }

  lemma {:induction false} OnesFromShift(m: nat, low: nat, high: nat)
    requires TrailingZeros(m, low + high) == low && ShiftRight(m, low) == Pow2(high) - 1
    ensures m == Ones(low, high)
  {
    if low == 0 {
      OnesValue(high);
    } else {
      OnesFromShift(m / 2, low - 1, high);
    }
  }

  /** Only the 33 netmasks have a prefix length. */
  lemma PrefixOfMaskExactly(m: nat, p: nat)
    ensures PrefixOfMask(m) == Some(p) <==> p <= 32 && m == Mask(p)
  {
    if p <= 32 {
      PrefixOfMaskInverts(p);
    }
    if PrefixOfMask(m) == Some(p) {
      OnesFromShift(m, 32 - p, p);
    }
  }

  lemma HostMaskIsNoMask(m: nat, p: nat)
    requires 0 < p < 32 && m + Mask(p) == SPACE - 1
    ensures PrefixOfMask(m).None?
  {
    var half := Ones(31 - p, p);
    EvenMask(p);
    OnesPositive(31 - p, p);
    OddMask(m, (SPACE - 1) / 2 - half);
  }

  lemma EvenMask(p: nat)
    ensures p < 32 ==> Mask(p) == 2 * Ones(31 - p, p)
  {
  }

  lemma OddMask(m: nat, k: nat)
    requires m == 2 * k + 1
    ensures PrefixOfMask(m).Some? ==> m == SPACE - 1
  {
    if PrefixOfMask(m).Some? {
      var q := PrefixOfMask(m).value;
      PrefixOfMaskExactly(m, q);
      FullMasks(32);
      EvenMask(q);
    }
  }

  lemma {:induction false} OnesPositive(low: nat, high: nat)
    requires high > 0
    ensures Ones(low, high) > 0
    decreases low
  {
    if low > 0 {
      OnesPositive(low - 1, high);
    }
  }

  /** A mask is a prefix length up to 32, a dotted netmask, or a dotted hostmask: the complement
      of a netmask that has both ones and zeros. */
  lemma ParseMaskExactly(s: string, p: nat)
    requires p <= 32
    ensures ParseMask(s) == Some(p) <==>
            || (AllDigits(s) && Value(s) == p)
            || ParseAddress(s) == Some(Mask(p))
            || (0 < p < 32 && ParseAddress(s).Some? && ParseAddress(s).value + Mask(p) == SPACE - 1)
  {
    AddressIsNoNumber(s);
    hide AllDigits, Value, ParseAddress, DottedMask, Mask;
    if ParseAddress(s).Some? {
      DottedMaskExactly(ParseAddress(s).value, p);
    }
  }

  lemma DottedMaskExactly(m: nat, p: nat)
    requires m < SPACE && p <= 32
    ensures DottedMask(m) == Some(p) <==> m == Mask(p) || (0 < p < 32 && m + Mask(p) == SPACE - 1)
  {
    PrefixOfMaskExactly(m, p);
    hide Mask;
    if PrefixOfMask(m).None? {
      PrefixOfMaskExactly(SPACE - 1 - m, p);
      ExtremeMasks(m);
    } else if 0 < p < 32 && m + Mask(p) == SPACE - 1 {
      HostMaskIsNoMask(m, p);
    }
  }

  lemma AddressIsNoNumber(s: string)
    ensures ParseAddress(s).Some? ==> !AllDigits(s)
  {
    if ParseAddress(s).Some? {
      ParseAddressExactly(s, ParseAddress(s).value);
      ShowAddressDotted(ParseAddress(s).value);
    }
  }

  lemma ExtremeMasks(m: nat)
    ensures m == 0 || m == SPACE - 1 ==> PrefixOfMask(m).Some?
    ensures m == SPACE - 1 - Mask(0) || m == SPACE - 1 - Mask(32) ==> PrefixOfMask(m).Some?
  {
    FullMasks(32);
    PrefixOfMaskInverts(0);
    PrefixOfMaskInverts(32);
  }

  lemma FullMasks(p: nat)
    requires p == 32
    ensures Mask(p) == SPACE - 1 && Mask(0) == 0
  {
    OnesValue(p);
    Pow2Of32(p);
    NoOnes(p);
  }

  lemma {:induction false} NoOnes(low: nat)
    ensures Ones(low, 0) == 0
  {
    if low > 0 {
      NoOnes(low - 1);
    }
  }

  /** A network is an address, alone or before one slash and a mask: the address with the host
      bits cleared. */
  lemma ParseExactly(address: string, mask: string, rest: string)
    requires '/' !in address && '/' !in mask
    ensures Parse(address) == if ParseAddress(address).None? then None else Some(Network(ParseAddress(address).value, 32))
    ensures Parse(address + ['/'] + mask) ==
            if ParseAddress(address).None? || ParseMask(mask).None? then None
            else Some(Network(Floor(ParseAddress(address).value, 32 - ParseMask(mask).value), ParseMask(mask).value))
    ensures Parse(address + ['/'] + mask + ['/'] + rest).None?
  {
    hide ParseAddress, ParseMask, NetworkOf;
    SplitNone(address, '/');
    SplitNone(mask, '/');
    SplitAt(address, '/', mask);
    SplitAt(address + ['/'] + mask, '/', rest);
    if ParseAddress(address).Some? {
      NetworkOfClearsHostBits(ParseAddress(address).value, 32);
      if ParseMask(mask).Some? {
        NetworkOfClearsHostBits(ParseAddress(address).value, ParseMask(mask).value);
      }
    }
  }

  // ---- canonicalisation is sound and complete ----

  lemma NormIdempotent(s: string)
    ensures Norm(Norm(s)) == Norm(s)
  {
    ParseIsCanonical(s);
    if Parse(s).Some? {
      ShowParses(Parse(s).value);
    }
  }

  lemma BadMaskFails(a: string, m: string)
    requires '/' !in a && '/' !in m && ParseMask(m).None?
    ensures Parse(a + ['/'] + m).None?
  {
    hide ParseMask, ParseAddress;
    SplitAt(a, '/', m);
    SplitNone(a, '/');
    SplitNone(m, '/');
  }

  lemma No33()
    ensures ParseMask("33").None?
  {
    var m := "33";
    assert m[..1] == "3" && m[..1][..0] == "";
    assert Value(m[..1]) == 3;
    assert Value(m) == 33;
    SplitNone(m, '.');
  }

  /** A prefix length beyond 32 makes a network malformed. */
  lemma PrefixOutOfRange()
    ensures PolicyIp("10.0.0.0/33").None? && ToWeka("10.0.0.0/33").None?
  {
    hide Parse, ParseMask;
    No33();
    BadMaskFails("10.0.0.0", "33");
    assert "10.0.0.0/33" == "10.0.0.0" + ['/'] + "33";
    assert "10.0.0.0/33"[8] == '/';
  }

  lemma NormKeepsSlash(s: string)
    ensures '/' in s ==> '/' in Norm(s)
  {
    ParseIsCanonical(s);
    if Parse(s).Some? {
      var n := Parse(s).value;
      assert Show(n)[|ShowAddress(n.address)|] == '/';
    }
  }

  lemma NormOfMalformed(s: string)
    ensures Parse(s).None? ==> Norm(s) == s
  {
  }

  lemma PolicyIpIdempotent(s: string)
    requires PolicyIp(s).Some?
    ensures PolicyIp(PolicyIp(s).value) == PolicyIp(s)
  {
    ParseIsCanonical(s);
    if '/' in s {
      ShowParses(Parse(s).value);
      assert Show(Parse(s).value)[|ShowAddress(Parse(s).value.address)|] == '/';
    }
  }

  /** The policy address of a text: the text itself without a slash, and otherwise one that
      denotes the same network, if there is one. */
  lemma PolicyIpExactly(s: string)
    ensures '/' !in s ==> PolicyIp(s) == Some(s)
    ensures '/' in s ==> (PolicyIp(s).Some? <==> Parse(s).Some?)
    ensures '/' in s && PolicyIp(s).Some? ==> '/' in PolicyIp(s).value && Parse(PolicyIp(s).value) == Parse(s)
  {
    ParseIsCanonical(s);
    if '/' in s && Parse(s).Some? {
      ShowParses(Parse(s).value);
      assert Show(Parse(s).value)[|ShowAddress(Parse(s).value.address)|] == '/';
    }
  }

  /** Two networks have one policy address exactly if they match the same addresses. */
  lemma PolicyIpEqualIffSameAddresses(s: string, t: string)
    ensures '/' in s && '/' in t && Parse(s).Some? && Parse(t).Some? ==>
      (PolicyIp(s) == PolicyIp(t) <==> forall x: nat | x < SPACE :: Matches(Parse(s).value, x) == Matches(Parse(t).value, x))
  {
    NormEqualIffSameAddresses(s, t);
  }

  /** The form written to client groups denotes the same network, with its netmask in dotted form. */
  lemma ToWekaExactly(s: string)
    ensures '/' !in s ==> ToWeka(s) == Some(s)
    ensures '/' in s ==> (ToWeka(s).Some? <==> Parse(s).Some?)
    ensures '/' in s && ToWeka(s).Some? ==> Parse(ToWeka(s).value) == Parse(s)
    ensures '/' in s && ToWeka(s).Some? ==>
      ToWeka(s).value == ShowAddress(Parse(s).value.address) + ['/'] + ShowAddress(Mask(Parse(s).value.prefix))
  {
    ParseIsCanonical(s);
    if '/' in s && Parse(s).Some? {
      var n := Parse(s).value;
      ShowMaskedParses(n);
    }
  }

  /** Whatever normalises like a network denotes it. */
  lemma NormDeterminesNetwork(s: string, t: string)
    requires Norm(s) == Norm(t)
    ensures Parse(t).Some? ==> Parse(s) == Parse(t)
  {
    ParseIsCanonical(s);
    ParseIsCanonical(t);
    if Parse(t).Some? {
      ShowParses(Parse(t).value);
      if Parse(s).Some? {
        ShowParses(Parse(s).value);
      }
    }
  }

  /** The dotted-mask rendering of a network normalises like the network itself. */
  lemma WekaFormNormalises(s: string)
    requires ToWeka(s).Some?
    ensures Norm(ToWeka(s).value) == Norm(s)
  {
    ParseIsCanonical(s);
    if '/' in s {
      ShowMaskedParses(Parse(s).value);
    }
  }

  /** A bare address normalises like its echoed /255.255.255.255 form. */
  lemma EchoNormalises(s: string)
    ensures Parse(s).Some? ==> Norm(Echo(s)) == Norm(s)
  {
    if '/' !in s {
      EchoParses(s, SPACE - 1);
    }
  }

  lemma EchoParses(s: string, top: nat)
    requires '/' !in s && top == SPACE - 1
    ensures Parse(Echo(s)) == Parse(s)
  {
    AllOnesText(top);
    AllOnesIsPrefix32(top, 32);
    ShowAddressParses(top);
    HostMaskParses(s, ShowAddress(top));
  }

  lemma HostMaskParses(s: string, mask: string)
    requires '/' !in s && '/' !in mask
    requires ParseMask(mask) == Some(32)
    ensures Parse(s + ['/'] + mask) == Parse(s)
  {
    SplitNone(s, '/');
    SplitAt(s, '/', mask);
    SplitNone(mask, '/');
  }

  lemma AllOnesText(n: nat)
    requires n == SPACE - 1
    ensures ShowAddress(n) == HOST_MASK
  {
    forall k: nat | k < 4
      ensures Octet(n, k) == 255
    {
      AllOnesOctet(n, 3, k);
    }
    Show255();
    hide ShowSmall;
    assert Octets(n) == ["255", "255", "255", "255"];
    hide Octets, Octet;
    JoinSame("255");
  }

  lemma Show255()
    ensures ShowSmall(255) == "255"
  {
  }

  lemma JoinSame(o: string)
    ensures Join([o, o, o, o], '.') == o + ['.'] + (o + ['.'] + (o + ['.'] + o))
  {
    var o4, o3, o2 := [o, o, o, o], [o, o, o], [o, o];
    assert o4[1..] == o3 && o3[1..] == o2 && o2[1..] == [o];
    assert Join(o2, '.') == o + ['.'] + Join([o], '.');
    assert Join(o3, '.') == o + ['.'] + Join(o2, '.');
  }

  lemma {:induction false} AllOnesOctet(n: nat, top: nat, k: nat)
    requires k <= top
    requires n % 256 == 255
    requires top > 0 ==> n / 256 % 256 == 255
    requires top > 1 ==> n / 256 / 256 % 256 == 255
    requires top > 2 ==> n / 256 / 256 / 256 % 256 == 255
    requires top <= 3
    ensures Octet(n, k) == 255
  {
    if k > 0 {
      AllOnesOctet(n / 256, top - 1, k - 1);
    }
  }

  lemma AllOnesIsPrefix32(n: nat, p: nat)
    requires n == SPACE - 1 && p == 32
    ensures ParseMask(ShowAddress(n)) == Some(p)
  {
    ShowAddressParses(n);
    ShowAddressDotted(n);
    Pow2Of32(p);
    OnesShape(0, p);
    assert ShiftRight(Ones(0, p), 0) == Ones(0, p);
    PrefixOfMaskInverts(p);
  }

  lemma MatchesIsInterval(n: Network, x: nat)
    requires Canonical(n) && x < SPACE
    ensures Matches(n, x) <==> n.address <= x < n.address + Pow2(32 - n.prefix)
  {
    var low := 32 - n.prefix;
    Pow2Of32(low + n.prefix);
    AndOnes(x, low, n.prefix);
    FloorBounds(x, low);
    if n.address <= x < n.address + Pow2(low) {
      FloorOfInterval(n.address, x, low);
    }
  }

  lemma {:induction false} Pow2Injective(a: nat, b: nat)
    requires Pow2(a) == Pow2(b)
    ensures a == b
  {
    if a > 0 && b > 0 {
      Pow2Injective(a - 1, b - 1);
    }
  }

  lemma Extent(n: Network) returns (last: nat)
    requires Canonical(n)
    ensures last == n.address + Pow2(32 - n.prefix) - 1 < SPACE
    ensures Matches(n, n.address) && Matches(n, last)
    ensures forall x: nat | x < SPACE :: Matches(n, x) <==> n.address <= x <= last
  {
    last := n.address + Pow2(32 - n.prefix) - 1;
    Pow2Of32(32 - n.prefix + n.prefix);
    FloorFits(n.address, 32 - n.prefix, n.prefix);
    forall x: nat | x < SPACE
      ensures Matches(n, x) <==> n.address <= x <= last
    {
      MatchesIsInterval(n, x);
    }
  }

  /** Two valid networks normalise to the same text exactly when they match the same addresses. */
  lemma NormEqualIffSameAddresses(s: string, t: string)
    ensures Parse(s).Some? && Parse(t).Some? ==>
      (Norm(s) == Norm(t) <==> forall x: nat | x < SPACE :: Matches(Parse(s).value, x) == Matches(Parse(t).value, x))
  {
    if Parse(s).Some? && Parse(t).Some? {
      ParseIsCanonical(s);
      ParseIsCanonical(t);
      var n, m := Parse(s).value, Parse(t).value;
      assert Show(n) == Show(m) ==> n == m by {
        ShowParses(n);
        ShowParses(m);
      }
      if forall x: nat | x < SPACE :: Matches(n, x) == Matches(m, x) {
        SameAddressesSameNetwork(n, m);
      }
    }
  }

  lemma SameAddressesSameNetwork(n: Network, m: Network)
    requires Canonical(n) && Canonical(m)
    requires forall x: nat | x < SPACE :: Matches(n, x) == Matches(m, x)
    ensures n == m
  {
    var nLast := Extent(n);
    var mLast := Extent(m);
    assert Matches(m, n.address) && Matches(n, m.address);
    assert Matches(m, nLast) && Matches(n, mLast);
    Pow2Injective(32 - n.prefix, 32 - m.prefix);
  }
}
