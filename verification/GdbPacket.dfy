/** The packets of the GDB remote protocol: what put_packet_binary prints, gdb_read_byte
    parses; and the hex and 'x' encodings of memory (gdbstub.c). */
module GdbPacket {

  import opened Basics

  const MAX_PACKET_LENGTH: nat := 4096

  const HASH: byte := 0x23
  const DOLLAR: byte := 0x24
  const STAR: byte := 0x2a
  const PLUS: byte := 0x2b
  const MINUS: byte := 0x2d
  const BRACE: byte := 0x7d

  // Hex digits

  function FromHex(v: byte): (d: nat)
    ensures d < 16
  {
    if 0x30 <= v <= 0x39 then v - 0x30
    else if 0x41 <= v <= 0x46 then v - 0x41 + 10
    else if 0x61 <= v <= 0x66 then v - 0x61 + 10
    else 0
  }

  function ToHex(v: nat): byte
    requires v < 16
  {
    if v < 10 then v + 0x30 else v - 10 + 0x61
  }

  /** memtohex */
  function Hex(mem: seq<byte>): (buf: seq<byte>)
    ensures |buf| == 2 * |mem|
  {
    if mem == [] then [] else [ToHex(mem[0] / 16), ToHex(mem[0] % 16)] + Hex(mem[1..])
  }

  /** hextomem */
  function Unhex(buf: seq<byte>, len: nat): (mem: seq<byte>)
    requires |buf| >= 2 * len
    ensures |mem| == len
  {
    if len == 0 then [] else [16 * FromHex(buf[0]) + FromHex(buf[1])] + Unhex(buf[2..], len - 1)
  }

  /** The digits printed are those of hexadecimal notation, in lower case. */
  lemma DigitPrinted(v: nat)
    requires v < 16
    ensures ToHex(v) == "0123456789abcdef"[v] as int
  {
  }

  /** The digits read may be of either case, and anything else counts as 0. */
  lemma DigitRead(v: byte)
    ensures forall d :: 0 <= d < 16 && (v == "0123456789abcdef"[d] as int || v == "0123456789ABCDEF"[d] as int) ==>
              FromHex(v) == d
    ensures (forall d :: 0 <= d < 16 ==> v != "0123456789abcdef"[d] as int && v != "0123456789ABCDEF"[d] as int) ==>
              FromHex(v) == 0
  {
    var lower, upper := "0123456789abcdef", "0123456789ABCDEF";
    if FromHex(v) != 0 || v == 0x30 {
      assert v == lower[FromHex(v)] as int || v == upper[FromHex(v)] as int;
    }
  }

  /** High digit first. */
  lemma {:induction false} HexAt(mem: seq<byte>, i: nat)
    requires i < |mem|
    ensures Hex(mem)[2 * i] == ToHex(mem[i] / 16) && Hex(mem)[2 * i + 1] == ToHex(mem[i] % 16)
  {
    if i > 0 {
      HexAt(mem[1..], i - 1);
    }
  }

  lemma HexDigits(v: byte)
    ensures 16 * FromHex(ToHex(v / 16)) + FromHex(ToHex(v % 16)) == v
  {
  }

  /** hextomem undoes memtohex. */
  lemma {:induction false} UnhexHex(mem: seq<byte>)
    ensures Unhex(Hex(mem), |mem|) == mem
  {
    if mem != [] {
      HexDigits(mem[0]);
      assert Hex(mem)[2..] == Hex(mem[1..]);
      UnhexHex(mem[1..]);
    }
  }

  method MemToHex(mem: seq<byte>) returns (buf: seq<byte>)
    ensures buf == Hex(mem)
  {
    buf := [];
    for i := 0 to |mem|
      invariant buf + Hex(mem[i..]) == Hex(mem)
    {
      assert mem[i..][1..] == mem[i + 1..];
      var c := mem[i];
      buf := buf + [ToHex(c / 16)] + [ToHex(c % 16)];
      assert buf == buf[..2 * i] + [ToHex(c / 16), ToHex(c % 16)];
    }
  }

  method HexToMem(buf: seq<byte>, len: nat) returns (mem: seq<byte>)
    requires |buf| >= 2 * len
    ensures mem == Unhex(buf, len)
  {
    mem := [];
    var rest := buf;
    for i := 0 to len
      invariant |rest| >= 2 * (len - i) && mem + Unhex(rest, len - i) == Unhex(buf, len)
    {
      mem := mem + [16 * FromHex(rest[0]) + FromHex(rest[1])];
      rest := rest[2..];
    }
  }

  // Escapes

  predicate Special(c: byte) {
    c == HASH || c == DOLLAR || c == STAR || c == BRACE
  }

  /** c ^ 0x20 */
  function Flip(c: byte): byte {
    if c / 32 % 2 == 1 then c - 32 else c + 32
  }

  /** Exactly the bit of weight 32 changes. */
  lemma FlipIs(c: byte)
    ensures Flip(c) % 32 == c % 32 && Flip(c) / 64 == c / 64 && Flip(c) / 32 % 2 != c / 32 % 2
  {
  }

  /** memtox */
  function Escape(mem: seq<byte>): seq<byte> {
    if mem == [] then []
    else (if Special(mem[0]) then [BRACE, Flip(mem[0])] else [mem[0]]) + Escape(mem[1..])
  }

  /** The reader of the protocol: a brace and a character stand for one byte. */
  function Unescape(buf: seq<byte>): seq<byte> {
    if buf == [] then []
    else if buf[0] == BRACE && |buf| > 1 then [Flip(buf[1])] + Unescape(buf[2..])
    else [buf[0]] + Unescape(buf[1..])
  }

  lemma {:induction false} UnescapeEscape(mem: seq<byte>)
    ensures Unescape(Escape(mem)) == mem
  {
    if mem != [] {
      UnescapeEscape(mem[1..]);
      var e := Escape(mem);
      if Special(mem[0]) {
        assert e[2..] == Escape(mem[1..]);
      } else {
        assert e[1..] == Escape(mem[1..]);
      }
    }
  }

  predicate NoHash(s: seq<byte>) {
    forall i :: 0 <= i < |s| ==> s[i] != HASH
  }

  /** Escaped bytes can go into a packet: none of the characters with a meaning in the protocol is
      left, and every brace is followed by the byte it stands for. */
  lemma {:induction false} EscapeNoHash(mem: seq<byte>)
    ensures NoHash(Escape(mem)) && |Escape(mem)| <= 2 * |mem|
    ensures forall i :: 0 <= i < |Escape(mem)| ==> Escape(mem)[i] != DOLLAR && Escape(mem)[i] != STAR
    ensures Escape(mem) != [] ==> Escape(mem)[|Escape(mem)| - 1] != BRACE
  {
    if mem != [] {
      EscapeNoHash(mem[1..]);
    }
  }

  lemma EscapeStep(buf: seq<byte>, mem: seq<byte>, i: nat)
    requires i < |mem|
    ensures var one := if Special(mem[i]) then [BRACE] + [Flip(mem[i])] else [mem[i]];
            buf + Escape(mem[i..]) == buf + one + Escape(mem[i + 1..])
  {
    assert mem[i..][1..] == mem[i + 1..];
  }

  method MemToX(mem: seq<byte>) returns (buf: seq<byte>)
    ensures buf == Escape(mem)
  {
    buf := [];
    for i := 0 to |mem|
      invariant buf + Escape(mem[i..]) == Escape(mem)
    {
      EscapeStep(buf, mem, i);
      if Special(mem[i]) {
        buf := buf + ([BRACE] + [Flip(mem[i])]);
      } else {
        buf := buf + [mem[i]];
      }
    }
  }

  // Packets

  /** The value of a char, which is signed. */
  function Signed(c: byte): int {
    if c < 128 then c else c - 256
  }

  function Checksum(buf: seq<byte>): int {
    if buf == [] then 0 else Checksum(buf[..|buf| - 1]) + Signed(buf[|buf| - 1])
  }

  /** What put_packet_binary sends for `buf`. */
  function Packet(buf: seq<byte>): seq<byte> {
    var csum := Checksum(buf);
    [DOLLAR] + buf + [HASH, ToHex(csum / 16 % 16), ToHex(csum % 16)]
  }

  /** put_packet_binary; the packet fits last_packet. */
  method PutPacketBinary(buf: seq<byte>) returns (packet: seq<byte>)
    requires |buf| <= MAX_PACKET_LENGTH
    ensures packet == Packet(buf) && |packet| <= MAX_PACKET_LENGTH + 4
  {
    packet := [DOLLAR] + buf;
    var csum := 0;
    for i := 0 to |buf|
      invariant csum == Checksum(buf[..i])
    {
      assert buf[..i + 1][..i] == buf[..i];
      csum := csum + Signed(buf[i]);
    }
    assert buf[..|buf|] == buf;
    packet := packet + [HASH] + [ToHex(csum / 16 % 16)] + [ToHex(csum % 16)];
    assert packet == [DOLLAR] + buf + [HASH, ToHex(csum / 16 % 16), ToHex(csum % 16)];
  }

  /** The checksum is the sum of the bytes, modulo 256. */
  lemma ChecksumNext(buf: seq<byte>, c: byte)
    ensures Checksum([]) == 0 && Checksum(buf + [c]) % 256 == (Checksum(buf) + c) % 256
  {
    assert (buf + [c])[..|buf|] == buf;
  }

  /** Any change of one byte changes the checksum. */
  lemma {:induction false} ChecksumDetects(buf: seq<byte>, i: nat, c: byte)
    requires i < |buf|
    ensures Checksum(WithByte(buf, i, c)) == Checksum(buf) + (Signed(c) - Signed(buf[i]))
    ensures c != buf[i] ==> Checksum(WithByte(buf, i, c)) % 256 != Checksum(buf) % 256
  {
    var n := |buf| - 1;
    if i < n {
      ChecksumDetects(buf[..n], i, c);
      assert WithByte(buf, i, c)[..n] == WithByte(buf[..n], i, c);
    } else {
      assert WithByte(buf, i, c)[..n] == buf[..n];
    }
    if c != buf[i] {
      Apart(Checksum(buf), Signed(c) - Signed(buf[i]));
    }
  }

  function WithByte(buf: seq<byte>, i: nat, c: byte): seq<byte>
    requires i < |buf|
  {
    buf[i := c]
  }

  lemma Apart(x: int, d: int)
    requires -256 < d < 256 && d != 0
    ensures (x + d) % 256 != x % 256
  {
  }

  datatype Rs = Idle | GetLine | Chksum1 | Chksum2

  /** What gdb_handle_packet leaves behind, beside the idle parser: a reply waiting for its
      acknowledgement, the bytes sent, and whether the guest runs again. */
  datatype Effect = Effect(last: seq<byte>, sent: seq<byte>, running: bool)

  /** The connection: parser state, line read so far, checksum, the last packet if it is not
      acknowledged, whether the guest runs, and what was sent and handed over. */
  datatype Conn = Conn(st: Rs, line: seq<byte>, csum: nat, last: seq<byte>, running: bool,
                       sent: seq<byte>, delivered: seq<seq<byte>>)

  /** The parser proper, with the guest stopped. */
  function Parse(c: Conn, ch: byte, handle: seq<byte> -> Effect): Conn {
    match c.st
    case Idle => if ch == DOLLAR then c.(line := [], st := GetLine) else c
    case GetLine =>
      if ch == HASH then c.(st := Chksum1)
      else if |c.line| >= MAX_PACKET_LENGTH - 1 then c.(st := Idle)
      else c.(line := c.line + [ch])
    case Chksum1 => c.(csum := FromHex(ch) * 16, st := Chksum2)
    case Chksum2 =>
      var csum := c.csum / 16 * 16 + FromHex(ch);
      if csum != Checksum(c.line) % 256 then c.(csum := csum, sent := c.sent + [MINUS], st := Idle)
      else
        var e := handle(c.line);
        Conn(Idle, c.line, csum, e.last, e.running, c.sent + [PLUS] + e.sent, c.delivered + [c.line])
  }

  /** gdb_read_byte */
  function ReadByte(c: Conn, ch: byte, handle: seq<byte> -> Effect): Conn {
    var waiting := c.last != [];
    var c1 := if waiting && ch == MINUS then c.(sent := c.sent + c.last) else c;
    var c2 := if waiting && (ch == PLUS || ch == DOLLAR) then c1.(last := []) else c1;
    if waiting && ch != DOLLAR then c2
    else if c2.running then c2.(running := false)
    else Parse(c2, ch, handle)
  }

  function Feed(c: Conn, s: seq<byte>, handle: seq<byte> -> Effect): Conn {
    if s == [] then c else ReadByte(Feed(c, s[..|s| - 1], handle), s[|s| - 1], handle)
  }

  lemma {:induction false} FeedConcat(c: Conn, s: seq<byte>, t: seq<byte>, handle: seq<byte> -> Effect)
    ensures Feed(c, s + t, handle) == Feed(Feed(c, s, handle), t, handle)
  {
    if t == [] {
      assert s + t == s;
    } else {
      var n := |t| - 1;
      assert (s + t)[..|s + t| - 1] == s + t[..n];
      FeedConcat(c, s, t[..n], handle);
    }
  }

  /** Reading a payload without '#' that fits collects it. */
  lemma {:induction false} FeedLine(c: Conn, s: seq<byte>, handle: seq<byte> -> Effect)
    requires c.st == GetLine && c.line == [] && c.last == [] && !c.running && NoHash(s) && |s| <= MAX_PACKET_LENGTH - 1
    ensures Feed(c, s, handle) == c.(line := s)
  {
    if s != [] {
      var n := |s| - 1;
      FeedLine(c, s[..n], handle);
      assert s[..n] + [s[n]] == s;
    }
  }

  lemma ChecksumDigits(csum: int)
    ensures FromHex(ToHex(csum / 16 % 16)) * 16 / 16 * 16 + FromHex(ToHex(csum % 16)) == csum % 256
  {
    DigitKept(csum / 16 % 16);
    DigitKept(csum % 16);
    TwoDigits(csum);
  }

  lemma TwoDigits(csum: int)
    ensures csum % 256 == csum / 16 % 16 * 16 + csum % 16
  {
    var q, r := csum / 16, csum % 16;
    assert csum == q * 16 + r;
    var p, d := q / 16, q % 16;
    assert q == p * 16 + d;
    assert csum == p * 256 + (d * 16 + r);
  }

  lemma DigitKept(d: nat)
    requires d < 16
    ensures FromHex(ToHex(d)) == d
  {
  }

  /** From idle, with the guest stopped and no reply outstanding, the bytes of a packet whose
      payload has no '#' and fits make the parser acknowledge it and hand over the payload. */
  lemma PacketDelivered(c: Conn, buf: seq<byte>, handle: seq<byte> -> Effect)
    requires c.st == Idle && c.last == [] && !c.running && NoHash(buf) && |buf| <= MAX_PACKET_LENGTH - 1
    ensures var c' := Feed(c, Packet(buf), handle);
            && c'.delivered == c.delivered + [buf] && c'.sent == c.sent + [PLUS] + handle(buf).sent
            && c'.st == Idle
  {
    var csum := Checksum(buf);
    var tail := [HASH, ToHex(csum / 16 % 16), ToHex(csum % 16)];
    var c1 := c.(line := [], st := GetLine);
    assert Feed(c, [DOLLAR], handle) == c1 by { assert Feed(c, [], handle) == c; }
    FeedConcat(c, [DOLLAR], buf, handle);
    FeedLine(c1, buf, handle);
    FeedConcat(c, [DOLLAR] + buf, tail, handle);
    FeedTail(c1.(line := buf), buf, handle);
  }

  lemma FeedTail(c: Conn, buf: seq<byte>, handle: seq<byte> -> Effect)
    requires c.st == GetLine && c.line == buf && c.last == [] && !c.running
    ensures var csum := Checksum(buf);
            var c' := Feed(c, [HASH, ToHex(csum / 16 % 16), ToHex(csum % 16)], handle);
            && c'.delivered == c.delivered + [buf] && c'.sent == c.sent + [PLUS] + handle(buf).sent
            && c'.st == Idle
  {
    var csum := Checksum(buf);
    var x, y, z := HASH, ToHex(csum / 16 % 16), ToHex(csum % 16);
    assert [x, y, z][..2] == [x, y] && [x, y][..1] == [x] && [x][..0] == [];
    ChecksumDigits(csum);
    assert Feed(c, [x], handle) == c.(st := Chksum1);
    assert Feed(c, [x, y], handle) == c.(st := Chksum2, csum := FromHex(y) * 16);
  }

  /** A payload followed by two digits: answered '+' and handed over exactly if they are its
      checksum, and answered '-' otherwise. */
  lemma ChecksumDecides(c: Conn, buf: seq<byte>, x: byte, y: byte, handle: seq<byte> -> Effect)
    requires c.st == Idle && c.last == [] && !c.running && NoHash(buf) && |buf| <= MAX_PACKET_LENGTH - 1
    ensures var c' := Feed(c, [DOLLAR] + buf + [HASH, x, y], handle);
            && c'.st == Idle
            && if 16 * FromHex(x) + FromHex(y) == Checksum(buf) % 256
               then c'.delivered == c.delivered + [buf] && c'.sent == c.sent + [PLUS] + handle(buf).sent
               else c'.delivered == c.delivered && c'.sent == c.sent + [MINUS] && c'.last == [] && !c'.running
  {
    var c1 := c.(line := [], st := GetLine);
    assert Feed(c, [DOLLAR], handle) == c1 by { assert Feed(c, [], handle) == c; }
    FeedConcat(c, [DOLLAR], buf, handle);
    FeedLine(c1, buf, handle);
    FeedConcat(c, [DOLLAR] + buf, [HASH, x, y], handle);
    FeedDigits(c1.(line := buf), buf, x, y, handle);
  }

  lemma FeedDigits(c: Conn, buf: seq<byte>, x: byte, y: byte, handle: seq<byte> -> Effect)
    requires c.st == GetLine && c.line == buf && c.last == [] && !c.running
    ensures var c' := Feed(c, [HASH, x, y], handle);
            && c'.st == Idle
            && if 16 * FromHex(x) + FromHex(y) == Checksum(buf) % 256
               then c'.delivered == c.delivered + [buf] && c'.sent == c.sent + [PLUS] + handle(buf).sent
               else c'.delivered == c.delivered && c'.sent == c.sent + [MINUS] && c'.last == [] && !c'.running
  {
    assert [HASH, x, y][..2] == [HASH, x] && [HASH, x][..1] == [HASH] && [HASH][..0] == [];
    assert Feed(c, [HASH], handle) == c.(st := Chksum1);
    assert Feed(c, [HASH, x], handle) == c.(st := Chksum2, csum := FromHex(x) * 16);
  }

  /** A packet with one byte of its payload changed on the way is refused. */
  lemma CorruptionRefused(c: Conn, buf: seq<byte>, i: nat, d: byte, x: byte, y: byte, handle: seq<byte> -> Effect)
    requires c.st == Idle && c.last == [] && !c.running && NoHash(buf) && |buf| <= MAX_PACKET_LENGTH - 1
    requires i < |buf| && d != buf[i] && d != HASH && Packet(buf) == [DOLLAR] + buf + [HASH, x, y]
    ensures var c' := Feed(c, [DOLLAR] + WithByte(buf, i, d) + [HASH, x, y], handle);
            c'.delivered == c.delivered && c'.sent == c.sent + [MINUS]
  {
    ChecksumDetects(buf, i, d);
    PacketDigits(buf, x, y);
    ChecksumDecides(c, WithByte(buf, i, d), x, y, handle);
  }

  lemma PacketDigits(buf: seq<byte>, x: byte, y: byte)
    requires Packet(buf) == [DOLLAR] + buf + [HASH, x, y]
    ensures 16 * FromHex(x) + FromHex(y) == Checksum(buf) % 256
  {
    var csum, n := Checksum(buf), |buf|;
    assert Packet(buf)[n + 2] == x && Packet(buf)[n + 3] == y;
    assert Packet(buf)[n + 2] == ToHex(csum / 16 % 16) && Packet(buf)[n + 3] == ToHex(csum % 16);
    ChecksumDigits(csum);
  }

  function Repeat(c: byte, n: nat): seq<byte> {
    seq<byte>(n, _ => c)
  }

  function Copies(s: seq<byte>, n: nat): seq<byte> {
    if n == 0 then [] else Copies(s, n - 1) + s
  }

  /** A reply that is not acknowledged is sent again for every '-'. */
  lemma {:induction false} ReplyResent(c: Conn, n: nat, handle: seq<byte> -> Effect)
    requires c.last != []
    ensures Feed(c, Repeat(MINUS, n), handle) == c.(sent := c.sent + Copies(c.last, n))
  {
    if n == 0 {
      assert c.sent + [] == c.sent;
    } else {
      ReplyResent(c, n - 1, handle);
      assert Repeat(MINUS, n)[..n - 1] == Repeat(MINUS, n - 1);
      assert c.sent + Copies(c.last, n - 1) + c.last == c.sent + Copies(c.last, n);
    }
  }

  /** A '+' acknowledges it, a '$' does too and begins a packet; other bytes are ignored. */
  lemma ReplyAcknowledged(c: Conn, ch: byte, handle: seq<byte> -> Effect)
    requires c.last != [] && ch != MINUS
    ensures Feed(c, [PLUS], handle) == c.(last := [])
    ensures ch != PLUS && ch != DOLLAR ==> Feed(c, [ch], handle) == c
    ensures c.st == Idle && !c.running ==> Feed(c, [DOLLAR], handle) == c.(last := [], line := [], st := GetLine)
  {
    assert [PLUS][..0] == [] && [ch][..0] == [] && [DOLLAR][..0] == [];
  }

  /** While the guest runs, a byte stops it and is not parsed. */
  lemma ByteStopsGuest(c: Conn, ch: byte, handle: seq<byte> -> Effect)
    requires c.last == [] && c.running
    ensures Feed(c, [ch], handle) == c.(running := false)
  {
    assert [ch][..0] == [];
  }

  /** Whatever bytes arrive, every packet handed over is free of '#' and fits the buffer. */
  ghost predicate Sound(c: Conn) {
    && |c.line| <= MAX_PACKET_LENGTH - 1 && NoHash(c.line)
    && forall k :: 0 <= k < |c.delivered| ==> NoHash(c.delivered[k]) && |c.delivered[k]| <= MAX_PACKET_LENGTH - 1
  }

  lemma {:induction false} FeedSound(c: Conn, s: seq<byte>, handle: seq<byte> -> Effect)
    requires Sound(c)
    ensures Sound(Feed(c, s, handle))
  {
    if s != [] {
      FeedSound(c, s[..|s| - 1], handle);
    }
  }

  /** A payload comes through exactly if it has no '#' and fits. */
  lemma PacketExact(c: Conn, buf: seq<byte>, handle: seq<byte> -> Effect)
    requires Sound(c) && c.st == Idle && c.last == [] && !c.running && buf !in c.delivered
    ensures buf in Feed(c, Packet(buf), handle).delivered <==> NoHash(buf) && |buf| <= MAX_PACKET_LENGTH - 1
  {
    FeedSound(c, Packet(buf), handle);
    if NoHash(buf) && |buf| <= MAX_PACKET_LENGTH - 1 {
      PacketDelivered(c, buf, handle);
    }
  }

  /** Memory sent as an escaped packet arrives, if it fits. */
  lemma MemoryTravels(c: Conn, mem: seq<byte>, handle: seq<byte> -> Effect)
    requires c.st == Idle && c.last == [] && !c.running && |Escape(mem)| <= MAX_PACKET_LENGTH - 1
    ensures var d := Feed(c, Packet(Escape(mem)), handle).delivered;
            |d| == |c.delivered| + 1 && Unescape(d[|d| - 1]) == mem
  {
    EscapeNoHash(mem);
    PacketDelivered(c, Escape(mem), handle);
    UnescapeEscape(mem);
  }

  /** GDBState, with line_buf changed in place. */
  class GdbState {
    const lineBuf: array<byte>
    var index: nat
    var st: Rs
    var csum: nat
    var last: seq<byte>
    var running: bool
    var sent: seq<byte>
    var delivered: seq<seq<byte>>

    ghost predicate Valid()
      reads this
    {
      lineBuf.Length == MAX_PACKET_LENGTH && index <= MAX_PACKET_LENGTH - 1
    }

    ghost function Abs(): Conn
      requires Valid()
      reads this, lineBuf
    {
      Conn(st, lineBuf[..index], csum, last, running, sent, delivered)
    }

    constructor ()
      ensures Valid() && Abs() == Conn(Idle, [], 0, [], false, [], [])
    {
      lineBuf := new byte[MAX_PACKET_LENGTH](_ => 0);
      index, st, csum, last, running, sent, delivered := 0, Idle, 0, [], false, [], [];
    }

    /** gdb_read_byte */
    method GdbReadByte(ch: byte, handle: seq<byte> -> Effect)
      requires Valid()
      modifies this, lineBuf
      ensures Valid() && Abs() == ReadByte(old(Abs()), ch, handle)
    {
      if last != [] {
        if ch == MINUS {
          sent := sent + last;
        }
        if ch == PLUS || ch == DOLLAR {
          last := [];
        }
        if ch != DOLLAR {
          return;
        }
      }
      if running {
        running := false;
      } else {
        Switch(ch, handle);
      }
    }

    /** The switch on the parser state. */
    method Switch(ch: byte, handle: seq<byte> -> Effect)
      requires Valid()
      modifies this, lineBuf
      ensures Valid() && Abs() == Parse(old(Abs()), ch, handle)
    {
      match st {
        case Idle =>
          if ch == DOLLAR {
            index, st := 0, GetLine;
          }
        case GetLine =>
          if ch == HASH {
            st := Chksum1;
          } else if index >= MAX_PACKET_LENGTH - 1 {
            st := Idle;
          } else {
            lineBuf[index] := ch;
            index := index + 1;
          }
        case Chksum1 =>
          lineBuf[index] := 0;
          csum, st := FromHex(ch) * 16, Chksum2;
        case Chksum2 =>
          CheckLine(ch, handle);
      }
    }

    /** The end of a packet: the checksum decides. */
    method CheckLine(ch: byte, handle: seq<byte> -> Effect)
      requires Valid() && st == Chksum2
      modifies this
      ensures Valid() && Abs() == Parse(old(Abs()), ch, handle)
    {
      csum := csum / 16 * 16 + FromHex(ch);
      var sum := 0;
      for i := 0 to index
        invariant sum == Checksum(lineBuf[..i])
      {
        assert lineBuf[..i + 1][..i] == lineBuf[..i];
        sum := sum + Signed(lineBuf[i]);
      }
      if csum != sum % 256 {
        sent, st := sent + [MINUS], Idle;
      } else {
        var line := lineBuf[..index];
        var e := handle(line);
        sent, delivered := sent + [PLUS] + e.sent, delivered + [line];
        st, last, running := Idle, e.last, e.running;
      }
    }
  }
}
