/** The settings record in the device's flash: its layout, its checksum, saving and loading. */
module Settings {
  import opened Common
  import opened Postcard

  const SECTOR_SIZE := 4_096
  const HEADER_LEN := 12
  const MAX_RECORD_LEN := 2_048
  const MAGIC: seq<Byte> := [0x53, 0x56, 0x54, 0x59]   // "SVTY"
  const STORAGE_VERSION: Byte := 1
  const BLANK: Byte := 0xFF

  datatype Provisioning = Provisioning(ssid: Utf8, password: Utf8, hostname: Utf8, ntfyTopic: Utf8)
  {
    predicate IsValid()
    {
      && 0 < |ssid| <= 32
      && |password| <= 63
      && 0 < |hostname| <= 32 && (forall k :: 0 <= k < |hostname| ==> Alphanumeric(hostname[k]) || hostname[k] == 0x2D)
      && 0 < |ntfyTopic| <= 128
      && (forall k :: 0 <= k < |ntfyTopic| ==>
            Alphanumeric(ntfyTopic[k]) || ntfyTopic[k] == 0x2D || ntfyTopic[k] == 0x5F)
    }
  }

  predicate Alphanumeric(b: Byte) {
    0x30 <= b <= 0x39 || 0x41 <= b <= 0x5A || 0x61 <= b <= 0x7A
  }

  function Letters(n: nat): (r: seq<Byte>)
    ensures |r| == n && forall k :: 0 <= k < n ==> r[k] == 0x61
  {
    seq(n, _ => 0x61)
  }

  lemma {:induction false} LettersAreText(n: nat)
    ensures ValidUtf8(Letters(n))
  {
    if n > 0 {
      LettersAreText(n - 1);
      assert Letters(n)[1..] == Letters(n - 1);
    }
  }

  const PLAIN: Utf8 := [0x61]

  lemma LongFields(n: nat)
    requires n <= 1_000 && ValidUtf8(Letters(n))
    ensures Provisioning(Letters(n), PLAIN, PLAIN, PLAIN).IsValid() <==> 1 <= n <= 32
    ensures Provisioning(PLAIN, Letters(n), PLAIN, PLAIN).IsValid() <==> n <= 63
  {
  }

  lemma LongNames(n: nat)
    requires n <= 1_000 && ValidUtf8(Letters(n))
    ensures Provisioning(PLAIN, PLAIN, Letters(n), PLAIN).IsValid() <==> 1 <= n <= 32
    ensures Provisioning(PLAIN, PLAIN, PLAIN, Letters(n)).IsValid() <==> 1 <= n <= 128
  {
  }

  /** The limits of the fields, on concrete ones: each length up to its own, and which of the four
      characters -, _, . and blank a host name and a topic may have. */
  lemma ValidityLimits(n: nat)
    requires n <= 1_000
    ensures ValidUtf8(Letters(n))
    ensures Provisioning(Letters(n), PLAIN, PLAIN, PLAIN).IsValid() <==> 1 <= n <= 32
    ensures Provisioning(PLAIN, Letters(n), PLAIN, PLAIN).IsValid() <==> n <= 63
    ensures Provisioning(PLAIN, PLAIN, Letters(n), PLAIN).IsValid() <==> 1 <= n <= 32
    ensures Provisioning(PLAIN, PLAIN, PLAIN, Letters(n)).IsValid() <==> 1 <= n <= 128
    ensures Provisioning([0x2E], [0x2E], [0x2D], [0x2D]).IsValid()
    ensures Provisioning([0x20], [0x20], [0x39], [0x5F]).IsValid()
    ensures !Provisioning(PLAIN, [], [0x5F], PLAIN).IsValid() && !Provisioning(PLAIN, [], [0x2E], PLAIN).IsValid()
    ensures !Provisioning(PLAIN, [], PLAIN, [0x2E]).IsValid() && !Provisioning(PLAIN, [], PLAIN, [0x20]).IsValid()
  {
    LettersAreText(n);
    LongFields(n);
    LongNames(n);
    RefusedHost(Provisioning(PLAIN, [], [0x5F], PLAIN));
    RefusedHost(Provisioning(PLAIN, [], [0x2E], PLAIN));
    RefusedTopic(Provisioning(PLAIN, [], PLAIN, [0x2E]));
    RefusedTopic(Provisioning(PLAIN, [], PLAIN, [0x20]));
  }

  lemma RefusedHost(p: Provisioning)
    requires |p.hostname| == 1 && (p.hostname[0] == 0x5F || p.hostname[0] == 0x2E)
    ensures !p.IsValid()
  {
    assert !Alphanumeric(p.hostname[0]);
  }

  lemma RefusedTopic(p: Provisioning)
    requires |p.ntfyTopic| == 1 && (p.ntfyTopic[0] == 0x2E || p.ntfyTopic[0] == 0x20)
    ensures !p.IsValid()
  {
    assert !Alphanumeric(p.ntfyTopic[0]);
  }

  datatype StoredSettings<+N> = StoredSettings(provisioning: Provisioning, network: Option<N>)

  /** How the network manifest is serialized within the record. */
  datatype Codec<!N> = Codec(put: N -> seq<Byte>, take: seq<Byte> -> Option<(N, seq<Byte>)>)

  ghost predicate Lawful<N(!new)>(c: Codec<N>) {
    forall n: N, rest: seq<Byte> :: c.take(c.put(n) + rest) == Some((n, rest))
  }

  // ---------------------------------------------------------------- the checksum (32-bit FNV-1a)

  type Word = w: int | 0 <= w < 0x1_0000_0000

  const FNV_OFFSET: Word := 2_166_136_261
  const FNV_PRIME: Word := 16_777_619

  /** Bitwise exclusive or of the lowest `bits` bits. */
  function Xor(a: nat, b: nat, bits: nat): nat
  {
    if bits == 0 then 0 else (if a % 2 == b % 2 then 0 else 1) + 2 * Xor(a / 2, b / 2, bits - 1)
  }

  ghost predicate Fits(a: nat, bits: nat)
  {
    if bits == 0 then a == 0 else Fits(a / 2, bits - 1)
  }

  lemma {:induction false} XorTwice(a: nat, b: nat, bits: nat)
    requires Fits(b, bits)
    ensures Xor(a, Xor(a, b, bits), bits) == b
    ensures Fits(Xor(a, b, bits), bits)
  {
    if bits > 0 {
      XorTwice(a / 2, b / 2, bits - 1);
      var x := Xor(a, b, bits);
      assert x / 2 == Xor(a / 2, b / 2, bits - 1) && x % 2 == (if a % 2 == b % 2 then 0 else 1);
    }
  }

  lemma {:induction false} FitsBelow(a: nat, bits: nat, limit: nat)
    requires Fits(a, bits) && limit == Power(bits)
    ensures a < limit
  {
    if bits > 0 {
      FitsBelow(a / 2, bits - 1, limit / 2);
    }
  }

  lemma {:induction false} BelowFits(a: nat, bits: nat)
    requires a < Power(bits)
    ensures Fits(a, bits)
  {
    if bits > 0 {
      BelowFits(a / 2, bits - 1);
    }
  }

  function Power(bits: nat): nat {
    if bits == 0 then 1 else 2 * Power(bits - 1)
  }

  lemma ByteFits(b: nat)
    ensures Fits(b, 8) <==> b < 256
  {
    assert Power(4) == 16;
    assert Power(8) == 256;
    if b < 256 {
      BelowFits(b, 8);
    } else if Fits(b, 8) {
      FitsBelow(b, 8, 256);
    }
  }

  /** A byte is mixed into the low byte of the hash. */
  function Mixed(hash: Word, b: Byte): Word
  {
    XorTwiceByte(hash % 256, b);
    hash - hash % 256 + Xor(hash % 256, b, 8)
  }

  lemma XorTwiceByte(a: Byte, b: Byte)
    ensures Xor(a, b, 8) < 256 && Xor(a, Xor(a, b, 8), 8) == b
  {
    ByteFits(b);
    XorTwice(a, b, 8);
    ByteFits(Xor(a, b, 8));
  }

  function Hashed(hash: Word, b: Byte): Word {
    Mixed(hash, b) * FNV_PRIME % 0x1_0000_0000
  }

  function ChecksumFrom(hash: Word, bytes: seq<Byte>): Word
    decreases |bytes|
  {
    if bytes == [] then hash else ChecksumFrom(Hashed(hash, bytes[0]), bytes[1..])
  }

  function Checksum(bytes: seq<Byte>): Word {
    ChecksumFrom(FNV_OFFSET, bytes)
  }

  const PRIME_INVERSE := 899_433_627

  /** Multiplying by the prime loses nothing: its inverse modulo 2^32 undoes it. */
  lemma PrimeIsInvertible(x: Word)
    ensures (x * FNV_PRIME % 0x1_0000_0000) * PRIME_INVERSE % 0x1_0000_0000 == x
  {
    var q := x * FNV_PRIME / 0x1_0000_0000;
    assert x * FNV_PRIME % 0x1_0000_0000 == x * FNV_PRIME - q * 0x1_0000_0000;
    assert (x * FNV_PRIME % 0x1_0000_0000) * PRIME_INVERSE == x + 0x1_0000_0000 * (x * 3_513_497 - q * PRIME_INVERSE);
  }

  lemma HashedIsInjective(g: Word, h: Word, a: Byte, b: Byte)
    ensures g != h ==> Hashed(g, a) != Hashed(h, a)
    ensures a != b ==> Hashed(g, a) != Hashed(g, b)
  {
    PrimeIsInvertible(Mixed(g, a));
    PrimeIsInvertible(Mixed(h, a));
    PrimeIsInvertible(Mixed(g, b));
    MixedIsInjective(g, h, a, b);
  }

  lemma {:induction false} XorCommutes(a: nat, b: nat, bits: nat)
    ensures Xor(a, b, bits) == Xor(b, a, bits)
  {
    if bits > 0 {
      XorCommutes(a / 2, b / 2, bits - 1);
    }
  }

  lemma XorIsInjective(a: Byte, b: Byte, x: Byte)
    requires a != b
    ensures Xor(a, x, 8) != Xor(b, x, 8) && Xor(x, a, 8) != Xor(x, b, 8)
  {
    XorTwiceByte(x, a);
    XorTwiceByte(x, b);
    XorCommutes(a, x, 8);
    XorCommutes(b, x, 8);
  }

  lemma MixedParts(hash: Word, b: Byte)
    ensures Mixed(hash, b) / 256 == hash / 256 && Mixed(hash, b) % 256 == Xor(hash % 256, b, 8)
  {
    XorTwiceByte(hash % 256, b);
    var x := Xor(hash % 256, b, 8);
    assert Mixed(hash, b) == 256 * (hash / 256) + x;
  }

  lemma MixedIsInjective(g: Word, h: Word, a: Byte, b: Byte)
    ensures g != h ==> Mixed(g, a) != Mixed(h, a)
    ensures a != b ==> Mixed(g, a) != Mixed(g, b)
  {
    MixedParts(g, a);
    MixedParts(h, a);
    MixedParts(g, b);
    if g % 256 != h % 256 {
      XorIsInjective(g % 256, h % 256, a);
    }
    if a != b {
      XorIsInjective(a, b, g % 256);
    }
  }

  lemma {:induction false} ChecksumKeepsApart(g: Word, h: Word, bytes: seq<Byte>)
    requires g != h
    ensures ChecksumFrom(g, bytes) != ChecksumFrom(h, bytes)
    decreases |bytes|
  {
    if bytes != [] {
      HashedIsInjective(g, h, bytes[0], bytes[0]);
      ChecksumKeepsApart(Hashed(g, bytes[0]), Hashed(h, bytes[0]), bytes[1..]);
    }
  }

  /** Two payloads that differ in exactly one byte have different checksums. */
  lemma {:induction false} OneByteChangesChecksum(hash: Word, bytes: seq<Byte>, k: nat, b: Byte)
    requires k < |bytes| && bytes[k] != b
    ensures ChecksumFrom(hash, bytes[k := b]) != ChecksumFrom(hash, bytes)
    decreases |bytes|
  {
    var changed := bytes[k := b];
    if k == 0 {
      HashedIsInjective(hash, hash, bytes[0], b);
      assert changed[1..] == bytes[1..];
      ChecksumKeepsApart(Hashed(hash, b), Hashed(hash, bytes[0]), bytes[1..]);
    } else {
      assert changed[1..] == bytes[1..][k - 1 := b];
      OneByteChangesChecksum(Hashed(hash, bytes[0]), bytes[1..], k - 1, b);
    }
  }

  lemma ChecksumOfOne(hash: Word, bytes: seq<Byte>, next: Word)
    requires |bytes| == 1 && Hashed(hash, bytes[0]) == next
    ensures ChecksumFrom(hash, bytes) == next
  {
    assert bytes[1..] == [];
  }

  lemma HashedFromXor(hash: Word, b: Byte, x: Byte, next: Word)
    requires Xor(hash % 256, b, 8) == x && next == (hash - hash % 256 + x) * FNV_PRIME % 0x1_0000_0000
    ensures Hashed(hash, b) == next
  {
  }

  lemma PublishedChecksum(hash: Word, low: Byte, bytes: seq<Byte>, x: Byte, carry: nat, next: Word)
    requires low == hash % 256 && |bytes| == 1 && Xor(low, bytes[0], 8) == x
    requires (hash - low + x) * FNV_PRIME == carry * 0x1_0000_0000 + next
    ensures ChecksumFrom(hash, bytes) == next
  {
    HashedFromXor(hash, bytes[0], x, next);
    ChecksumOfOne(hash, bytes, next);
  }

  lemma XorWithA(low: Byte, b: Byte)
    requires low == 0xC5 && b == 0x61
    ensures Xor(low, b, 8) == 0xA4
  {
    assert Xor(1, 0, 1) == 1;
    assert Xor(3, 1, 2) == 2;
    assert Xor(6, 3, 3) == 5;
    assert Xor(12, 6, 4) == 10;
    assert Xor(24, 12, 5) == 20;
    assert Xor(49, 24, 6) == 41;
    assert Xor(98, 48, 7) == 82;
    assert Xor(197, 97, 8) == 164;
  }

  lemma XorWithF(low: Byte, b: Byte)
    requires low == 0xC5 && b == 0x66
    ensures Xor(low, b, 8) == 0xA3
  {
    assert Xor(1, 0, 1) == 1;
    assert Xor(3, 1, 2) == 2;
    assert Xor(6, 3, 3) == 5;
    assert Xor(12, 6, 4) == 10;
    assert Xor(24, 12, 5) == 20;
    assert Xor(49, 25, 6) == 40;
    assert Xor(98, 51, 7) == 81;
    assert Xor(197, 102, 8) == 163;
  }

  /** Published FNV-1a values: of "a" and of "f". */
  lemma PublishedChecksums(a: seq<Byte>, f: seq<Byte>)
    requires a == [0x61] && f == [0x66]
    ensures Checksum(a) == 0xE40C_292C && Checksum(f) == 0xE30C_2799
  {
    PublishedChecksumOfA(FNV_OFFSET, FNV_OFFSET % 256, a);
    PublishedChecksumOfF(FNV_OFFSET, FNV_OFFSET % 256, f);
  }

  lemma PublishedChecksumOfA(hash: Word, low: Byte, bytes: seq<Byte>)
    requires hash == 0x811C_9DC5 && low == hash % 256 && |bytes| == 1 && bytes[0] == 0x61
    ensures ChecksumFrom(hash, bytes) == 0xE40C_292C
  {
    XorWithA(low, bytes[0]);
    PublishedChecksum(hash, low, bytes, 0xA4, 8_461_672, 0xE40C_292C);
  }

  lemma PublishedChecksumOfF(hash: Word, low: Byte, bytes: seq<Byte>)
    requires hash == 0x811C_9DC5 && low == hash % 256 && |bytes| == 1 && bytes[0] == 0x66
    ensures ChecksumFrom(hash, bytes) == 0xE30C_2799
  {
    XorWithF(low, bytes[0]);
    PublishedChecksum(hash, low, bytes, 0xA3, 8_461_672, 0xE30C_2799);
  }

  method ComputeChecksum(bytes: array<Byte>, from: nat, len: nat) returns (hash: Word)
    requires from + len <= bytes.Length
    ensures hash == Checksum(bytes[from..from + len])
  {
    hash := FNV_OFFSET;
    ghost var all := bytes[from..from + len];
    assert all[0..] == all;
    for k := 0 to len
      invariant ChecksumFrom(hash, all[k..]) == Checksum(all)
    {
      assert all[k..][0] == bytes[from + k] && all[k..][1..] == all[k + 1..];
      hash := Hashed(hash, bytes[from + k]);
    }
  }

  // ---------------------------------------------------------------- the payload

  function PutSettings<N>(c: Codec<N>, s: StoredSettings<N>): seq<Byte> {
    PutString(s.provisioning.ssid) + (PutString(s.provisioning.password)
    + (PutString(s.provisioning.hostname) + (PutString(s.provisioning.ntfyTopic) + PutOption(s.network, c.put))))
  }

  /** Bytes behind the value are ignored. */
  function TakeSettings<N>(c: Codec<N>, s: seq<Byte>): Option<StoredSettings<N>>
  {
    var ssid := TakeString(s);
    if ssid.None? then None else
    var password := TakeString(ssid.value.1);
    if password.None? then None else
    var hostname := TakeString(password.value.1);
    if hostname.None? then None else
    var topic := TakeString(hostname.value.1);
    if topic.None? then None else
    var network := TakeOption(topic.value.1, c.take);
    if network.None? then None else
    Some(StoredSettings(Provisioning(ssid.value.0, password.value.0, hostname.value.0, topic.value.0), network.value.0))
  }

  lemma SettingsRoundTrip<N(!new)>(c: Codec<N>, s: StoredSettings<N>)
    requires Lawful(c)
    ensures TakeSettings(c, PutSettings(c, s)) == Some(s)
  {
    var p, network := s.provisioning, PutOption(s.network, c.put);
    var topic := PutString(p.ntfyTopic) + network;
    var hostname := PutString(p.hostname) + topic;
    var password := PutString(p.password) + hostname;
    StringRoundTrip(p.ssid, password);
    StringRoundTrip(p.password, hostname);
    StringRoundTrip(p.hostname, topic);
    StringRoundTrip(p.ntfyTopic, network);
    OptionRoundTrip(s.network, c.put, c.take, []);
    assert network + [] == network;
  }

  // ---------------------------------------------------------------- the record

  function LittleEndian(value: nat, bytes: nat): (r: seq<Byte>)
    ensures |r| == bytes
  {
    if bytes == 0 then [] else [value % 256] + LittleEndian(value / 256, bytes - 1)
  }

  function FromLittleEndian(s: seq<Byte>): nat
  {
    if s == [] then 0 else s[0] + 256 * FromLittleEndian(s[1..])
  }

  function Range(bytes: nat): nat {
    if bytes == 0 then 1 else 256 * Range(bytes - 1)
  }

  lemma {:induction false} LittleEndianRoundTrip(value: nat, bytes: nat)
    requires value < Range(bytes)
    ensures FromLittleEndian(LittleEndian(value, bytes)) == value
  {
    if bytes > 0 {
      LittleEndianRoundTrip(value / 256, bytes - 1);
      assert LittleEndian(value, bytes)[1..] == LittleEndian(value / 256, bytes - 1);
    }
  }

  lemma WordRoundTrip(value: Word)
    ensures FromLittleEndian(LittleEndian(value, 4)) == value
    ensures value < 0x1_0000 ==> FromLittleEndian(LittleEndian(value, 2)) == value
  {
    assert Range(2) == 0x1_0000;
    assert Range(4) == 0x1_0000_0000;
    LittleEndianRoundTrip(value, 4);
    if value < 0x1_0000 {
      LittleEndianRoundTrip(value, 2);
    }
  }

  lemma {:induction false} LittleEndianIsInjective(s: seq<Byte>, t: seq<Byte>)
    requires |s| == |t| && s != t
    ensures FromLittleEndian(s) != FromLittleEndian(t)
    decreases |s|
  {
    if s[0] == t[0] {
      assert s[1..] != t[1..] by {
        assert s == [s[0]] + s[1..] && t == [t[0]] + t[1..];
      }
      LittleEndianIsInjective(s[1..], t[1..]);
    }
  }

  function Padded(n: nat): nat {
    (n + 3) / 4 * 4
  }

  function Blanks(n: nat): seq<Byte> {
    seq(n, _ => BLANK)
  }

  function Header(payload: seq<Byte>): (r: seq<Byte>)
    ensures |r| == HEADER_LEN
  {
    MAGIC + [STORAGE_VERSION, BLANK] + LittleEndian(|payload|, 2) + LittleEndian(Checksum(payload), 4)
  }

  function Record(payload: seq<Byte>): seq<Byte> {
    Header(payload) + payload + Blanks(Padded(|payload|) - |payload|)
  }

  /** A sector that holds this record and nothing else. */
  function Sector(payload: seq<Byte>): (r: seq<Byte>)
    requires |payload| <= MAX_RECORD_LEN
    ensures |r| == SECTOR_SIZE
  {
    Record(payload) + Blanks(SECTOR_SIZE - HEADER_LEN - Padded(|payload|))
  }

  function LengthIn(sector: seq<Byte>): nat
    requires |sector| == SECTOR_SIZE
  {
    FromLittleEndian(sector[6..8])
  }

  /** The payload of a record whose header and checksum are in order. */
  function PayloadIn(sector: seq<Byte>): (r: Option<seq<Byte>>)
    requires |sector| == SECTOR_SIZE
    ensures r.Some? ==> 0 < |r.value| <= MAX_RECORD_LEN && r.value == sector[HEADER_LEN..HEADER_LEN + |r.value|]
  {
    var len := LengthIn(sector);
    if sector[..4] != MAGIC || sector[4] != STORAGE_VERSION || len == 0 || len > MAX_RECORD_LEN then None
    else
      var payload := sector[HEADER_LEN..HEADER_LEN + len];
      if Checksum(payload) != FromLittleEndian(sector[8..12]) then None else Some(payload)
  }

  function Loaded<N>(c: Codec<N>, sector: seq<Byte>): (r: Option<StoredSettings<N>>)
    requires |sector| == SECTOR_SIZE
    ensures r.Some? ==> r.value.provisioning.IsValid()
  {
    var payload := PayloadIn(sector);
    if payload.None? then None
    else
      var value := TakeSettings(c, payload.value);
      if value.Some? && value.value.provisioning.IsValid() then value else None
  }

  predicate Storable<N>(c: Codec<N>, s: StoredSettings<N>) {
    s.provisioning.IsValid() && |PutSettings(c, s)| <= MAX_RECORD_LEN
  }

  lemma HeaderParts(payload: seq<Byte>)
    ensures var h := Header(payload);
      && h[..4] == MAGIC && h[4] == STORAGE_VERSION
      && h[6..8] == LittleEndian(|payload|, 2) && h[8..12] == LittleEndian(Checksum(payload), 4)
  {
    ThreeParts(MAGIC + [STORAGE_VERSION, BLANK], LittleEndian(|payload|, 2), LittleEndian(Checksum(payload), 4));
  }

  lemma ThreeParts(start: seq<Byte>, len: seq<Byte>, sum: seq<Byte>)
    requires |start| == 6 && |len| == 2 && |sum| == 4
    ensures var h := start + len + sum; h[..4] == start[..4] && h[4] == start[4] && h[6..8] == len && h[8..12] == sum
  {
    var h := start + len + sum;
    Middle(start, len, sum);
    Middle(start + len, sum, []);
    assert h + [] == h;
    assert h[..4] == start[..4];
  }

  lemma Middle<T>(a: seq<T>, b: seq<T>, c: seq<T>)
    ensures (a + b + c)[|a|..|a| + |b|] == b
  {
  }

  lemma SectorParts(payload: seq<Byte>)
    requires |payload| <= MAX_RECORD_LEN
    ensures var s := Sector(payload);
      && s[..HEADER_LEN] == Header(payload) && s[HEADER_LEN..HEADER_LEN + |payload|] == payload
  {
    var h, padding := Header(payload), Blanks(Padded(|payload|) - |payload|);
    var blanks := padding + Blanks(SECTOR_SIZE - HEADER_LEN - Padded(|payload|));
    assert Sector(payload) == h + payload + blanks;
    Middle(h, payload, blanks);
    Middle([], h, payload + blanks);
  }

  lemma LittleEndianBytes(value: nat)
    ensures LittleEndian(value, 2) == [value % 256, value / 256 % 256]
    ensures LittleEndian(value, 4)
         == [value % 256, value / 256 % 256, value / 256 / 256 % 256, value / 256 / 256 / 256 % 256]
  {
    assert LittleEndian(value / 256 / 256, 2) == [value / 256 / 256 % 256, value / 256 / 256 / 256 % 256];
  }

  /** The record byte for byte: "SVTY", the version, a blank, the payload's length and checksum with
      their lowest bytes first, the payload, and blanks up to the next multiple of four. */
  lemma RecordLayout(payload: seq<Byte>)
    requires |payload| <= MAX_RECORD_LEN
    ensures var r, len, sum := Record(payload), |payload|, Checksum(payload);
      && r[..12] == [0x53, 0x56, 0x54, 0x59, 1, 0xFF, len % 256, len / 256,
                     sum % 256, sum / 256 % 256, sum / 256 / 256 % 256, sum / 256 / 256 / 256]
      && r[12..12 + len] == payload
      && (forall k :: 12 + len <= k < |r| ==> r[k] == 0xFF)
      && |r| % 4 == 0 && 12 + len <= |r| < 12 + len + 4
  {
    var h, padding := Header(payload), Blanks(Padded(|payload|) - |payload|);
    LittleEndianBytes(|payload|);
    LittleEndianBytes(Checksum(payload));
    assert Record(payload) == h + payload + padding;
    Middle(h, payload, padding);
    Middle([], h, payload + padding);
  }

  /** A stored record reads back. */
  lemma SectorRoundTrip(payload: seq<Byte>)
    requires 0 < |payload| <= MAX_RECORD_LEN
    ensures PayloadIn(Sector(payload)) == Some(payload)
  {
    var s := Sector(payload);
    SectorParts(payload);
    HeaderParts(payload);
    var h := s[..HEADER_LEN];
    assert s[..4] == h[..4] && s[4] == h[4] && s[6..8] == h[6..8] && s[8..12] == h[8..12];
    WordRoundTrip(|payload|);
    WordRoundTrip(Checksum(payload));
  }

  /** What was saved is what is loaded, for every record that can be saved. */
  lemma SaveThenLoad<N(!new)>(c: Codec<N>, value: StoredSettings<N>)
    requires Lawful(c) && Storable(c, value)
    ensures Loaded(c, Sector(PutSettings(c, value))) == Some(value)
  {
    SectorRoundTrip(PutSettings(c, value));
    SettingsRoundTrip(c, value);
  }

  // ---------------------------------------------------------------- damage to one byte

  lemma UnchangedOutside(s: seq<Byte>, k: nat, b: Byte, lo: nat, hi: nat)
    requires k < |s| && lo <= hi <= |s| && !(lo <= k < hi)
    ensures s[k := b][lo..hi] == s[lo..hi]
  {
  }

  lemma ChangedInside(s: seq<Byte>, k: nat, b: Byte, lo: nat, hi: nat)
    requires k < |s| && lo <= k < hi <= |s| && s[k] != b
    ensures s[k := b][lo..hi] == s[lo..hi][k - lo := b] && s[k := b][lo..hi] != s[lo..hi]
  {
    assert s[k := b][lo..hi][k - lo] == b && s[lo..hi][k - lo] == s[k];
  }

  lemma PayloadDamage(sector: seq<Byte>, k: nat, b: Byte)
    requires |sector| == SECTOR_SIZE && PayloadIn(sector).Some?
    requires HEADER_LEN <= k < HEADER_LEN + |PayloadIn(sector).value| && sector[k] != b
    ensures PayloadIn(sector[k := b]).None?
  {
    var p := PayloadIn(sector).value;
    UnchangedOutside(sector, k, b, 0, 4);
    UnchangedOutside(sector, k, b, 6, 8);
    UnchangedOutside(sector, k, b, 8, 12);
    ChangedInside(sector, k, b, HEADER_LEN, HEADER_LEN + |p|);
    OneByteChangesChecksum(FNV_OFFSET, p, k - HEADER_LEN, b);
  }

  lemma HeaderDamage(sector: seq<Byte>, k: nat, b: Byte)
    requires |sector| == SECTOR_SIZE && PayloadIn(sector).Some?
    requires (k < 5 || 8 <= k < HEADER_LEN) && sector[k] != b
    ensures PayloadIn(sector[k := b]).None?
  {
    var p := PayloadIn(sector).value;
    if k < 4 {
      ChangedInside(sector, k, b, 0, 4);
    } else if k >= 8 {
      UnchangedOutside(sector, k, b, 6, 8);
      UnchangedOutside(sector, k, b, HEADER_LEN, HEADER_LEN + |p|);
      ChangedInside(sector, k, b, 8, 12);
      LittleEndianIsInjective(sector[k := b][8..12], sector[8..12]);
    }
  }

  lemma IgnoredDamage(sector: seq<Byte>, k: nat, b: Byte)
    requires |sector| == SECTOR_SIZE && PayloadIn(sector).Some?
    requires k == 5 || HEADER_LEN + |PayloadIn(sector).value| <= k < SECTOR_SIZE
    ensures PayloadIn(sector[k := b]) == PayloadIn(sector)
  {
    var p := PayloadIn(sector).value;
    UnchangedOutside(sector, k, b, 0, 4);
    UnchangedOutside(sector, k, b, 6, 8);
    UnchangedOutside(sector, k, b, 8, 12);
    UnchangedOutside(sector, k, b, HEADER_LEN, HEADER_LEN + |p|);
  }

  /** A change to one of the two length bytes goes unnoticed if and only if the record then read,
      which has another length, is in range and happens to have the same checksum. */
  lemma LengthDamage(sector: seq<Byte>, k: nat, b: Byte)
    requires |sector| == SECTOR_SIZE && PayloadIn(sector).Some? && (k == 6 || k == 7) && sector[k] != b
    ensures var damaged := sector[k := b]; var p, len := PayloadIn(sector).value, LengthIn(damaged);
      && len != |p|
      && (PayloadIn(damaged).Some?
          <==> 0 < len <= MAX_RECORD_LEN && Checksum(sector[HEADER_LEN..HEADER_LEN + len]) == Checksum(p))
  {
    var damaged := sector[k := b];
    UnchangedOutside(sector, k, b, 0, 4);
    UnchangedOutside(sector, k, b, 8, 12);
    ChangedInside(sector, k, b, 6, 8);
    LittleEndianIsInjective(damaged[6..8], sector[6..8]);
    if 0 < LengthIn(damaged) <= MAX_RECORD_LEN {
      UnchangedOutside(sector, k, b, HEADER_LEN, HEADER_LEN + LengthIn(damaged));
    }
  }

  /** Any change to exactly one byte of a readable record, its two length bytes aside, is either
      noticed, and nothing is loaded, or it lies in a byte the record does not use, and the same
      value is loaded. */
  lemma OneByteOfDamage<N>(c: Codec<N>, sector: seq<Byte>, k: nat, b: Byte)
    requires |sector| == SECTOR_SIZE && PayloadIn(sector).Some?
    requires k < SECTOR_SIZE && k != 6 && k != 7 && sector[k] != b
    ensures Loaded(c, sector[k := b])
         == if k == 5 || k >= HEADER_LEN + |PayloadIn(sector).value| then Loaded(c, sector) else None
  {
    if k == 5 || k >= HEADER_LEN + |PayloadIn(sector).value| {
      IgnoredDamage(sector, k, b);
    } else if k < HEADER_LEN {
      HeaderDamage(sector, k, b);
    } else {
      PayloadDamage(sector, k, b);
    }
  }

  // ---------------------------------------------------------------- saving and loading

  function Spliced(s: seq<Byte>, at: nat, bytes: seq<Byte>): seq<Byte>
    requires at + |bytes| <= |s|
  {
    s[..at] + bytes + s[at + |bytes|..]
  }

  lemma SplicedNext(done: seq<Byte>, left: nat, bytes: seq<Byte>)
    requires |bytes| <= left
    ensures Spliced(done + Blanks(left), |done|, bytes) == done + bytes + Blanks(left - |bytes|)
  {
  }

  /** One more piece of a record, written behind the pieces before it, over blanks. */
  lemma OnePieceMore(before: seq<Byte>, after: seq<Byte>, done: seq<Byte>, left: nat, bytes: seq<Byte>)
    requires |bytes| <= left && before == done + Blanks(left) && after == Spliced(before, |done|, bytes)
    ensures after == done + bytes + Blanks(left - |bytes|)
  {
    SplicedNext(done, left, bytes);
  }

  /** The byte behind the version stays blank. */
  lemma OneBlankMore(sector: seq<Byte>, done: seq<Byte>, left: nat)
    requires 0 < left && sector == done + Blanks(left)
    ensures sector == done + [BLANK] + Blanks(left - 1)
  {
    assert Blanks(left) == [BLANK] + Blanks(left - 1);
  }

  lemma HeaderStages(size: nat, len: seq<Byte>, check: seq<Byte>, r0: seq<Byte>, r1: seq<Byte>, r2: seq<Byte>,
                     r3: seq<Byte>, r4: seq<Byte>)
    requires |len| == 2 && |check| == 4 && HEADER_LEN <= size && r0 == Blanks(size) && |r1| == |r2| == |r3| == size
    requires r1 == Spliced(r0, 0, MAGIC) && r2 == Spliced(r1, 4, [STORAGE_VERSION])
    requires r3 == Spliced(r2, 6, len) && r4 == Spliced(r3, 8, check)
    ensures r4 == MAGIC + [STORAGE_VERSION] + [BLANK] + len + check + Blanks(size - HEADER_LEN)
  {
    assert [] + Blanks(size) == r0 && [] + MAGIC == MAGIC;
    OnePieceMore(r0, r1, [], size, MAGIC);
    OnePieceMore(r1, r2, MAGIC, size - 4, [STORAGE_VERSION]);
    OneBlankMore(r2, MAGIC + [STORAGE_VERSION], size - 5);
    OnePieceMore(r2, r3, MAGIC + [STORAGE_VERSION] + [BLANK], size - 6, len);
    OnePieceMore(r3, r4, MAGIC + [STORAGE_VERSION] + [BLANK] + len, size - 8, check);
  }

  lemma HeaderIs(payload: seq<Byte>, len: seq<Byte>, check: seq<Byte>)
    requires len == LittleEndian(|payload|, 2) && check == LittleEndian(Checksum(payload), 4)
    ensures MAGIC + [STORAGE_VERSION] + [BLANK] + len + check == Header(payload)
  {
    assert MAGIC + [STORAGE_VERSION] + [BLANK] == MAGIC + [STORAGE_VERSION, BLANK];
  }

  method CopyInto(record: array<Byte>, at: nat, bytes: seq<Byte>)
    requires at + |bytes| <= record.Length
    modifies record
    ensures record[..] == Spliced(old(record[..]), at, bytes)
  {
    for k := 0 to |bytes|
      invariant record[..at] == old(record[..at]) && record[at..at + k] == bytes[..k]
      invariant record[at + |bytes|..] == old(record[at + |bytes|..])
    {
      record[at + k] := bytes[k];
    }
  }

  class Store<N(!new)> {
    const codec: Codec<N>
    const flash: array<Byte>

    ghost predicate Valid() {
      flash.Length == SECTOR_SIZE
    }

    /** A failed flash operation promises nothing. */
    method Erase(succeeds: bool)
      requires Valid()
      modifies flash
      ensures succeeds ==> flash[..] == Blanks(SECTOR_SIZE)
    {
      if succeeds {
        for k := 0 to SECTOR_SIZE
          invariant forall j :: 0 <= j < k ==> flash[j] == BLANK
        {
          flash[k] := BLANK;
        }
      }
    }

    method Write(record: array<Byte>, succeeds: bool)
      requires Valid() && record.Length <= SECTOR_SIZE && record != flash
      modifies flash
      ensures succeeds ==> flash[..] == record[..] + old(flash[record.Length..])
    {
      if succeeds {
        CopyInto(flash, 0, record[..]);
      }
    }

    method BuildRecord(payload: seq<Byte>) returns (record: array<Byte>)
      requires |payload| <= MAX_RECORD_LEN
      ensures fresh(record) && record[..] == Record(payload)
    {
      record := new Byte[HEADER_LEN + Padded(|payload|)](_ => BLANK);
      var bytes := new Byte[|payload|](k requires 0 <= k < |payload| => payload[k]);
      assert bytes[0..0 + |payload|] == payload;
      var sum := ComputeChecksum(bytes, 0, |payload|);
      FillRecord(record, payload, sum);
    }

    method FillRecord(record: array<Byte>, payload: seq<Byte>, sum: Word)
      requires |payload| <= MAX_RECORD_LEN && sum == Checksum(payload)
      requires record[..] == Blanks(HEADER_LEN + Padded(|payload|))
      modifies record
      ensures record[..] == Record(payload)
    {
      var len, check := LittleEndian(|payload|, 2), LittleEndian(sum, 4);
      FillHeader(record, len, check);
      HeaderIs(payload, len, check);
      ghost var before := record[..];
      CopyInto(record, HEADER_LEN, payload);
      OnePieceMore(before, record[..], Header(payload), Padded(|payload|), payload);
    }

    method FillHeader(record: array<Byte>, len: seq<Byte>, check: seq<Byte>)
      requires |len| == 2 && |check| == 4 && HEADER_LEN <= record.Length && record[..] == Blanks(record.Length)
      modifies record
      ensures record[..] == MAGIC + [STORAGE_VERSION] + [BLANK] + len + check + Blanks(record.Length - HEADER_LEN)
    {
      ghost var size, r0 := record.Length, record[..];
      CopyInto(record, 0, MAGIC);
      ghost var r1 := record[..];
      CopyInto(record, 4, [STORAGE_VERSION]);
      ghost var r2 := record[..];
      CopyInto(record, 6, len);
      ghost var r3 := record[..];
      CopyInto(record, 8, check);
      HeaderStages(size, len, check, r0, r1, r2, r3, record[..]);
    }

    method Save(value: StoredSettings<N>, eraseSucceeds: bool, writeSucceeds: bool) returns (ok: bool)
      requires Valid()
      modifies flash
      ensures ok <==> Storable(codec, value) && eraseSucceeds && writeSucceeds
      ensures ok ==> flash[..] == Sector(PutSettings(codec, value))
      ensures !Storable(codec, value) ==> flash[..] == old(flash[..])
    {
      if !value.provisioning.IsValid() {
        return false;
      }
      var payload := PutSettings(codec, value);
      if |payload| > MAX_RECORD_LEN {
        return false;
      }
      var record := BuildRecord(payload);
      Erase(eraseSucceeds);
      if !eraseSucceeds {
        return false;
      }
      Write(record, writeSucceeds);
      ok := writeSucceeds;
    }

    method ReadPayload(headerReads: bool, payloadReads: bool) returns (r: Option<seq<Byte>>)
      requires Valid()
      ensures r == if headerReads && payloadReads then PayloadIn(flash[..]) else None
    {
      if !headerReads {
        return None;
      }
      var header := flash[..HEADER_LEN];
      assert header[..4] == flash[..][..4] && header[6..8] == flash[..][6..8] && header[8..12] == flash[..][8..12];
      if header[..4] != MAGIC || header[4] != STORAGE_VERSION {
        return None;
      }
      var len := FromLittleEndian(header[6..8]);
      if len == 0 || len > MAX_RECORD_LEN || !payloadReads {
        return None;
      }
      var sum := ComputeChecksum(flash, HEADER_LEN, len);
      var payload := flash[HEADER_LEN..HEADER_LEN + len];
      assert payload == flash[..][HEADER_LEN..HEADER_LEN + len];
      if sum != FromLittleEndian(header[8..12]) {
        return None;
      }
      return Some(payload);
    }

    method Load(headerReads: bool, payloadReads: bool) returns (r: Option<StoredSettings<N>>)
      requires Valid()
      ensures r == if headerReads && payloadReads then Loaded(codec, flash[..]) else None
    {
      var payload := ReadPayload(headerReads, payloadReads);
      if payload.None? {
        return None;
      }
      var value := TakeSettings(codec, payload.value);
      if value.None? || !value.value.provisioning.IsValid() {
        return None;
      }
      return value;
    }
  }
}
