/**
 The newc archive reader of kernel/src/cpio.c, on byte sequences. Every field is checked before it is
 used, so no precondition is placed on the bytes.
 */
module Cpio {
  import opened ByteSeqs

  const HEADER: nat := 110
  const MAGIC: seq<Byte> := [48, 55, 48, 55, 48, 49]
  /** "TRAILER!!!" */
  const TRAILER: seq<Byte> := [84, 82, 65, 73, 76, 69, 82, 33, 33, 33]

  // ----- hexadecimal fields -----

  /** The value of a hexadecimal digit of either case, or -1. */
  function Digit(b: Byte): (v: int)
    ensures -1 <= v < 16
  {
    if 48 <= b <= 57 then b - 48
    else if 97 <= b <= 102 then b - 87
    else if 65 <= b <= 70 then b - 55
    else -1
  }

  /** A byte has the value of the digit it spells in either case, and every other byte has none. */
  lemma DigitExact(b: Byte, v: nat)
    requires v < 16
    ensures Digit(b) == v <==> b == "0123456789abcdef"[v] as int || b == "0123456789ABCDEF"[v] as int
  {
  }

  lemma NamesSpelled()
    ensures MAGIC == Ascii("070701") && TRAILER == Ascii("TRAILER!!!")
  {
  }

  /** The number a field spells, or -1 if some byte is no digit. */
  function Hex(s: seq<Byte>): (v: int)
    ensures v >= -1
  {
    if s == [] then 0 else
      var h, d := Hex(s[..|s| - 1]), Digit(s[|s| - 1]);
      if h < 0 || d < 0 then -1 else h * 16 + d
  }

  method HexToU32(s: seq<Byte>, at: nat) returns (v: int)
    requires at + 8 <= |s|
    ensures v == Hex(s[at..at + 8])
  {
    v := 0;
    var i := 0;
    while i < 8
      invariant i <= 8 && v == Hex(s[at..at + i]) && v >= 0
    {
      var d := Digit(s[at + i]);
      assert s[at..at + i + 1][..i] == s[at..at + i];
      if d < 0 {
        HexBad(s[at..at + 8], i);
        return -1;
      }
      v := v * 16 + d;
      i := i + 1;
    }
  }

  lemma {:induction false} HexBad(s: seq<Byte>, i: nat)
    requires i < |s| && Digit(s[i]) < 0
    ensures Hex(s) == -1
  {
    if i < |s| - 1 { HexBad(s[..|s| - 1], i); }
  }

  // ----- one entry -----

  /** What stands at the start of the remaining bytes. Offsets are relative to them. */
  datatype Head = Bad | End | Item(nameLen: nat, dataAt: nat, size: nat, mode: nat, next: nat)

  /** A C string of `|name| - 1` bytes: the last byte, and no other, is NUL. */
  ghost predicate Terminated(name: seq<Byte>) {
    name != [] && name[|name| - 1] == 0 && 0 !in name[..|name| - 1]
  }

  ghost function At(t: seq<Byte>): Head {
    if |t| < HEADER || t[..6] != MAGIC then Bad else
    var n, f, m := Hex(t[94..102]), Hex(t[54..62]), Hex(t[14..22]);
    if n < 0 || f < 0 || m < 0 || n == 0 || n > |t| - HEADER || !Terminated(t[HEADER..HEADER + n]) then Bad
    else if t[HEADER..HEADER + n - 1] == TRAILER then End
    else if Align4(HEADER + n) > |t| || Align4(f) > |t| - Align4(HEADER + n) then Bad
    else Item(n - 1, Align4(HEADER + n), f, m, Align4(HEADER + n) + Align4(f))
  }

  /** An entry reported to the callback, by position. */
  datatype Visit = Visit(nameAt: nat, nameLen: nat, dataAt: nat, size: nat, mode: nat)

  lemma HeadInside(t: seq<Byte>)
    ensures At(t).Item? ==> 0 < At(t).next <= |t|
  {
  }

  /** The entries reported from `cur` on, and whether the trailer was reached. */
  ghost function Walk(s: seq<Byte>, cur: nat): (r: (bool, seq<Visit>))
    requires cur <= |s|
    decreases |s| - cur
  {
    HeadInside(s[cur..]);
    match At(s[cur..])
    case Bad => (false, [])
    case End => (true, [])
    case Item(n, d, f, m, next) =>
      var rest := Walk(s, cur + next);
      (rest.0, [Visit(cur + HEADER, n, cur + d, f, m)] + rest.1)
  }

  /** One entry of the walk, behind those already seen. */
  lemma WalkStep(s: seq<Byte>, cur: nat, seen: seq<Visit>)
    requires cur <= |s|
    ensures var h, w := At(s[cur..]), Walk(s, cur);
            && (h == Bad ==> w == (false, [])) && (h == End ==> w == (true, []))
            && (h.Item? ==> 0 < h.next <= |s| - cur && w.0 == Walk(s, cur + h.next).0
                            && seen + w.1 == seen + [Visit(cur + HEADER, h.nameLen, cur + h.dataAt, h.size, h.mode)] + Walk(s, cur + h.next).1)
  {
    HeadInside(s[cur..]);
    hide At;
  }

  /** `str_eq` of a terminated name and a string without NUL. */
  method Same(name: seq<Byte>, want: seq<Byte>) returns (yes: bool)
    requires Terminated(name) && 0 !in want
    ensures yes <==> name[..|name| - 1] == want
  {
    ghost var body := name[..|name| - 1];
    assert forall j :: 0 <= j < |body| ==> body[j] == name[j] && body[j] in body;
    var i := 0;
    while name[i] != 0 && i < |want|
      invariant i < |name| && i <= |want| && name[..i] == want[..i]
      decreases |name| - i
    {
      if name[i] != want[i] {
        assert body[i] != want[i];
        return false;
      }
      i := i + 1;
    }
    yes := name[i] == 0 && i == |want|;
    assert yes ==> want[..i] == want;
  }

  method CheckName(name: seq<Byte>) returns (ok: bool)
    requires name != []
    ensures ok <==> Terminated(name)
  {
    if name[|name| - 1] != 0 { return false; }
    var i := 0;
    while i + 1 < |name|
      invariant i < |name| && 0 !in name[..i]
    {
      if name[i] == 0 {
        assert name[..|name| - 1][i] == 0;
        return false;
      }
      i := i + 1;
    }
    return true;
  }

  method CheckMagic(t: seq<Byte>) returns (ok: bool)
    requires |t| >= 6
    ensures ok <==> t[..6] == MAGIC
  {
    ok := t[0] == 48 && t[1] == 55 && t[2] == 48 && t[3] == 55 && t[4] == 48 && t[5] == 49;
    var m := t[..6];
    assert m == MAGIC ==> m[0] == 48 && m[1] == 55 && m[2] == 48 && m[3] == 55 && m[4] == 48 && m[5] == 49;
  }

  /** One round of `cpio_iterate` on the bytes left. */
  method ReadHead(t: seq<Byte>) returns (h: Head)
    ensures h == At(t)
  {
    hide Hex, Digit, Terminated, Align4;
    if |t| < HEADER { return Bad; }
    var magic := CheckMagic(t);
    if !magic { return Bad; }
    var n := HexToU32(t, 94);
    var f := HexToU32(t, 54);
    var m := HexToU32(t, 14);
    if n < 0 || f < 0 || m < 0 || n == 0 || n > |t| - HEADER { return Bad; }
    var name := t[HEADER..HEADER + n];
    var good := CheckName(name);
    if !good { return Bad; }
    var last := Same(name, TRAILER);
    assert name[..n - 1] == t[HEADER..HEADER + n - 1];
    if last { return End; }
    var nameSpan := Align4(HEADER + n);
    if nameSpan > |t| { return Bad; }
    var fileSpan := Align4(f);
    if fileSpan > |t| - nameSpan { return Bad; }
    return Item(n - 1, nameSpan, f, m, nameSpan + fileSpan);
  }

  /** `cpio_iterate`, with the callback's calls collected. */
  method Iterate(s: seq<Byte>) returns (ok: bool, visits: seq<Visit>)
    ensures ok == Walk(s, 0).0 && visits == Walk(s, 0).1
  {
    hide At, Walk;
    visits := [];
    var cur := 0;
    while true
      invariant cur <= |s|
      invariant Walk(s, 0).0 == Walk(s, cur).0 && Walk(s, 0).1 == visits + Walk(s, cur).1
      decreases |s| - cur
    {
      var h := ReadHead(s[cur..]);
      WalkStep(s, cur, visits);
      match h {
        case Bad => return false, visits;
        case End => return true, visits;
        case Item(n, d, f, m, next) =>
          visits := visits + [Visit(cur + HEADER, n, cur + d, f, m)];
          cur := cur + next;
      }
    }
  }

  // ----- any bytes -----

  /** Name, terminator and data lie inside the archive, and the name is a C string. */
  ghost predicate Inside(s: seq<Byte>, v: Visit) {
    && v.nameAt + v.nameLen + 1 <= v.dataAt && v.dataAt + v.size <= |s|
    && Terminated(s[v.nameAt..v.nameAt + v.nameLen + 1])
  }

  /** Whatever the bytes are, every reported range lies inside them. */
  lemma {:induction false} WalkInside(s: seq<Byte>, cur: nat)
    requires cur <= |s|
    ensures forall i :: 0 <= i < |Walk(s, cur).1| ==> Inside(s, Walk(s, cur).1[i])
    decreases |s| - cur
  {
    hide At, Inside, Walk;
    WalkStep(s, cur, []);
    ItemInside(s, cur);
    var w := Walk(s, cur).1;
    assert [] + w == w;
    if At(s[cur..]).Item? {
      WalkInside(s, cur + At(s[cur..]).next);
    }
  }

  lemma ItemInside(s: seq<Byte>, cur: nat)
    requires cur <= |s|
    ensures At(s[cur..]).Item? ==> var h := At(s[cur..]); Inside(s, Visit(cur + HEADER, h.nameLen, cur + h.dataAt, h.size, h.mode))
  {
    hide Hex, Terminated;
    var t, h := s[cur..], At(s[cur..]);
    assert h.Item? ==> t[HEADER..HEADER + h.nameLen + 1] == s[cur + HEADER..cur + HEADER + h.nameLen + 1];
  }

  // ----- archives -----

  /** An entry with the header fields the reader ignores. */
  datatype Entry = Entry(name: seq<Byte>, data: seq<Byte>, mode: nat,
                         ino: seq<Byte>, ids: seq<Byte>, devices: seq<Byte>, check: seq<Byte>)

  const LIMIT: nat := 0x1_0000_0000

  ghost predicate Encodable(e: Entry) {
    && 0 !in e.name && |e.name| + 1 < LIMIT && |e.data| < LIMIT && e.mode < LIMIT
    && |e.ino| == 8 && |e.ids| == 32 && |e.devices| == 32 && |e.check| == 8
  }

  function DigitOf(v: nat): (b: Byte)
    requires v < 16
    ensures Digit(b) == v
  {
    if v < 10 then 48 + v else 87 + v
  }

  /** `n` hexadecimal digits. */
  function HexField(v: nat, n: nat): (r: seq<Byte>)
    ensures |r| == n
    decreases n
  {
    if n == 0 then [] else HexField(v / 16, n - 1) + [DigitOf(v % 16)]
  }

  function Pow16(n: nat): (p: nat)
    ensures p > 0
  {
    if n == 0 then 1 else 16 * Pow16(n - 1)
  }

  lemma {:induction false} HexRoundTrip(v: nat, n: nat)
    requires v < Pow16(n)
    ensures Hex(HexField(v, n)) == v
    decreases n
  {
    if n > 0 {
      HexRoundTrip(v / 16, n - 1);
      var s := HexField(v, n);
      assert s[..n - 1] == HexField(v / 16, n - 1);
    }
  }

  /** A digit in the case asked for. */
  function DigitIn(v: nat, upper: bool): (b: Byte)
    requires v < 16
  {
    (if upper then "0123456789ABCDEF" else "0123456789abcdef")[v] as int
  }

  /** A field whose digits are each in the case asked for. */
  function HexFieldIn(v: nat, upper: seq<bool>): (r: seq<Byte>)
    ensures |r| == |upper|
    decreases |upper|
  {
    if upper == [] then [] else HexFieldIn(v / 16, upper[..|upper| - 1]) + [DigitIn(v % 16, upper[|upper| - 1])]
  }

  /** Reading undoes writing, whatever the cases. */
  lemma {:induction false} HexAnyCase(v: nat, upper: seq<bool>)
    requires v < Pow16(|upper|)
    ensures Hex(HexFieldIn(v, upper)) == v
    decreases |upper|
  {
    hide Digit, DigitIn;
    if upper != [] {
      var n := |upper| - 1;
      HexAnyCase(v / 16, upper[..n]);
      DigitReads(v % 16, upper[n]);
      var s := HexFieldIn(v, upper);
      assert s[..n] == HexFieldIn(v / 16, upper[..n]);
    }
  }

  lemma DigitReads(v: nat, upper: bool)
    requires v < 16
    ensures Digit(DigitIn(v, upper)) == v
  {
    DigitExact(DigitIn(v, upper), v);
  }

  lemma Hex32(v: nat)
    requires v < LIMIT
    ensures Hex(HexField(v, 8)) == v
  {
    assert Pow16(8) == 16 * 16 * Pow16(6) && Pow16(6) == 16 * 16 * Pow16(4) && Pow16(4) == 16 * 16 * Pow16(2) && Pow16(2) == 256;
    HexRoundTrip(v, 8);
  }

  function Header(e: Entry): seq<Byte> {
    MAGIC + e.ino + HexField(e.mode, 8) + e.ids + HexField(|e.data|, 8) + e.devices + HexField(|e.name| + 1, 8) + e.check
  }

  function Encode(e: Entry): seq<Byte> {
    Padded(Header(e) + e.name + [0], Align4(HEADER + |e.name| + 1)) + Padded(e.data, Align4(|e.data|))
  }

  // ----- bytes that spell an entry -----

  // Hexadecimal digits may be of either case and padding may be anything.

  /** Header and name of the entry stand at the start of the bytes. */
  ghost predicate Front(t: seq<Byte>, e: Entry) {
    var n := |e.name| + 1;
    && |t| >= HEADER + n && t[..6] == MAGIC && t[6..14] == e.ino && Hex(t[14..22]) == e.mode && t[22..54] == e.ids
    && Hex(t[54..62]) == |e.data| && t[62..94] == e.devices && Hex(t[94..102]) == n && t[102..HEADER] == e.check
    && t[HEADER..HEADER + n] == e.name + [0]
  }

  function DataAt(e: Entry): nat {
    Align4(HEADER + |e.name| + 1)
  }

  function Size(e: Entry): nat {
    DataAt(e) + Align4(|e.data|)
  }

  /** So does its data. */
  ghost predicate Whole(t: seq<Byte>, e: Entry) {
    Front(t, e) && |t| >= Size(e) && t[DataAt(e)..DataAt(e) + |e.data|] == e.data
  }

  /** A slice behind a prefix. */
  lemma Behind(p: seq<Byte>, t: seq<Byte>, i: nat, j: nat)
    requires i <= j <= |t|
    ensures (p + t)[|p| + i..|p| + j] == t[i..j]
  {
  }

  /** A slice of a prefix. */
  lemma Within(t: seq<Byte>, k: nat, i: nat, j: nat)
    requires i <= j <= k <= |t|
    ensures t[i..j] == t[..k][i..j]
  {
  }

  lemma HeaderFields(e: Entry)
    requires Encodable(e)
    ensures var h := Header(e);
            && |h| == HEADER && h[..6] == MAGIC && h[6..14] == e.ino && h[14..22] == HexField(e.mode, 8) && h[22..54] == e.ids
            && h[54..62] == HexField(|e.data|, 8) && h[62..94] == e.devices && h[94..102] == HexField(|e.name| + 1, 8) && h[102..] == e.check
  {
    hide HexField;
  }

  /** The header and the name at the start of the bytes. */
  lemma EncodedFront(h: seq<Byte>, name: seq<Byte>, front: seq<Byte>, rest: seq<Byte>)
    requires |h| == HEADER && |front| >= |h| + |name| && front[..|h| + |name|] == h + name
    ensures var t := front + rest;
            t[..HEADER] == h && t[HEADER..HEADER + |name|] == name
  {
    var t, k := front + rest, HEADER + |name|;
    assert t[..k] == front[..k];
    assert t[..HEADER] == t[..k][..HEADER] == h;
    Within(t, k, HEADER, k);
  }

  /** The encoding of an entry spells it, whatever follows. */
  lemma EncodedSpells(e: Entry, rest: seq<Byte>)
    requires Encodable(e)
    ensures |Encode(e)| == Size(e) && Whole(Encode(e) + rest, e)
  {
    hide Hex, HexField, Zeros, Padded, Header, Front;
    var h, t, n := Header(e), Encode(e) + rest, |e.name| + 1;
    HeaderFields(e);
    var front, back := Padded(h + e.name + [0], Align4(HEADER + n)), Padded(e.data, Align4(|e.data|));
    assert h + e.name + [0] == h + (e.name + [0]);
    EncodedFront(h, e.name + [0], front, back + rest);
    assert t == front + (back + rest);
    FrontOf(t, e);
    Behind(front, back + rest, 0, |e.data|);
    assert (back + rest)[..|e.data|] == back[..|e.data|];
  }

  lemma FrontOf(t: seq<Byte>, e: Entry)
    requires Encodable(e) && |t| >= HEADER + |e.name| + 1 && t[..HEADER] == Header(e) && t[HEADER..HEADER + |e.name| + 1] == e.name + [0]
    ensures Front(t, e)
  {
    hide Hex, HexField, Header;
    HeaderFields(e);
    Hex32(|e.name| + 1);
    Hex32(|e.data|);
    Hex32(e.mode);
    Within(t, HEADER, 0, 6);
    Within(t, HEADER, 6, 14);
    Within(t, HEADER, 14, 22);
    Within(t, HEADER, 22, 54);
    Within(t, HEADER, 54, 62);
    Within(t, HEADER, 62, 94);
    Within(t, HEADER, 94, 102);
    Within(t, HEADER, 102, HEADER);
  }

  /** All but the last byte of a slice. */
  lemma AllButLast(t: seq<Byte>, i: nat, j: nat)
    requires i < j <= |t|
    ensures t[i..j - 1] == t[i..j][..j - i - 1] && t[i..j] == t[i..j - 1] + [t[i..j][j - i - 1]]
  {
  }

  lemma SpelledName(t: seq<Byte>, e: Entry)
    requires Front(t, e)
    ensures t[HEADER..HEADER + |e.name|] == e.name
  {
    hide Hex;
    AllButLast(t, HEADER, HEADER + |e.name| + 1);
    assert (e.name + [0])[..|e.name|] == e.name;
  }

  /** Such bytes are read as the entry. */
  lemma SpelledHead(t: seq<Byte>, e: Entry)
    requires 0 !in e.name && Front(t, e) && (e.name != TRAILER ==> Whole(t, e))
    ensures At(t) == if e.name == TRAILER then End else Item(|e.name|, DataAt(e), |e.data|, e.mode, Size(e))
  {
    hide Hex, Terminated, Align4;
    NameEnds(e.name);
    SpelledName(t, e);
  }

  lemma EncodedHead(e: Entry, rest: seq<Byte>)
    requires Encodable(e)
    ensures At(Encode(e) + rest) == if e.name == TRAILER then End else Item(|e.name|, DataAt(e), |e.data|, e.mode, |Encode(e)|)
  {
    hide At, Encode, Front;
    EncodedSpells(e, rest);
    SpelledHead(Encode(e) + rest, e);
  }

  lemma NameEnds(name: seq<Byte>)
    requires 0 !in name
    ensures Terminated(name + [0])
  {
    assert (name + [0])[..|name|] == name;
  }

  // ----- the bytes are those of the encoding -----

  predicate HexAt(i: nat) {
    14 <= i < 22 || 54 <= i < 62 || 94 <= i < 102
  }

  predicate Padding(e: Entry, i: nat) {
    HEADER + |e.name| + 1 <= i < DataAt(e) || DataAt(e) + |e.data| <= i
  }

  /** Fields of the same value have the same digits, up to case. */
  lemma {:induction false} SameDigits(f: seq<Byte>, v: nat, i: nat)
    requires Hex(f) == v && i < |f|
    ensures Digit(f[i]) == Digit(HexField(v, |f|)[i])
    decreases |f|
  {
    var n := |f| - 1;
    var front := f[..n];
    assert v == Hex(front) * 16 + Digit(f[n]);
    assert v / 16 == Hex(front) && v % 16 == Digit(f[n]);
    assert HexField(v, |f|) == HexField(v / 16, n) + [DigitOf(v % 16)];
    if i < n { SameDigits(front, v / 16, i); }
  }

  /** Bytes that spell an entry differ from its encoding in padding and in the case of hexadecimal digits only. */
  lemma SpelledLike(t: seq<Byte>, e: Entry, i: nat)
    requires Encodable(e) && Whole(t, e) && i < Size(e) && !Padding(e, i)
    ensures |Encode(e)| == Size(e)
    ensures if HexAt(i) then Digit(t[i]) == Digit(Encode(e)[i]) else t[i] == Encode(e)[i]
  {
    hide Hex, HexField, Encode, Digit;
    EncodedSpells(e, []);
    assert Encode(e) + [] == Encode(e);
    var a, n := Encode(e), |e.name| + 1;
    if i < HEADER {
      HeadLike(t, a, e, i);
    } else if i < HEADER + n {
      assert t[i] == t[HEADER..HEADER + n][i - HEADER] && a[i] == a[HEADER..HEADER + n][i - HEADER];
    } else {
      var d, k := DataAt(e), |e.data|;
      assert t[i] == t[d..d + k][i - d] && a[i] == a[d..d + k][i - d];
    }
  }

  lemma HeadLike(t: seq<Byte>, a: seq<Byte>, e: Entry, i: nat)
    requires Front(t, e) && Front(a, e) && i < HEADER
    ensures if HexAt(i) then Digit(t[i]) == Digit(a[i]) else t[i] == a[i]
  {
    hide Hex, HexField, Digit;
    if 14 <= i < 22 {
      FieldLike(t, a, 14, e.mode, i);
    } else if 54 <= i < 62 {
      FieldLike(t, a, 54, |e.data|, i);
    } else if 94 <= i < 102 {
      FieldLike(t, a, 94, |e.name| + 1, i);
    } else {
      assert i < 6 ==> t[i] == t[..6][i] && a[i] == a[..6][i];
      assert 6 <= i < 14 ==> t[i] == t[6..14][i - 6] && a[i] == a[6..14][i - 6];
      assert 22 <= i < 54 ==> t[i] == t[22..54][i - 22] && a[i] == a[22..54][i - 22];
      assert 62 <= i < 94 ==> t[i] == t[62..94][i - 62] && a[i] == a[62..94][i - 62];
      assert 102 <= i ==> t[i] == t[102..HEADER][i - 102] && a[i] == a[102..HEADER][i - 102];
    }
  }

  lemma FieldLike(t: seq<Byte>, a: seq<Byte>, at: nat, v: nat, i: nat)
    requires at <= i < at + 8 <= |t| && at + 8 <= |a| && Hex(t[at..at + 8]) == v && Hex(a[at..at + 8]) == v
    ensures Digit(t[i]) == Digit(a[i])
  {
    hide Hex, HexField, Digit;
    SameDigits(t[at..at + 8], v, i - at);
    SameDigits(a[at..at + 8], v, i - at);
  }

  /** The entries, an entry named as the trailer, and any bytes after it. */
  function Archive(es: seq<Entry>, trailer: Entry, junk: seq<Byte>): seq<Byte> {
    if es == [] then Encode(trailer) + junk else Encode(es[0]) + Archive(es[1..], trailer, junk)
  }

  /** The visit reports exactly this entry. */
  ghost predicate Reports(s: seq<Byte>, v: Visit, e: Entry) {
    && v.nameAt + v.nameLen <= |s| && s[v.nameAt..v.nameAt + v.nameLen] == e.name
    && v.dataAt + v.size <= |s| && s[v.dataAt..v.dataAt + v.size] == e.data && v.mode == e.mode
  }

  ghost predicate ReportsAll(s: seq<Byte>, vs: seq<Visit>, es: seq<Entry>) {
    |vs| == |es| && forall i :: 0 <= i < |es| ==> Reports(s, vs[i], es[i])
  }

  ghost predicate Regular(e: Entry) {
    Encodable(e) && e.name != TRAILER
  }

  /** From `cur` on the bytes spell the entries and a trailer's header and name. */
  ghost predicate Spells(s: seq<Byte>, cur: nat, es: seq<Entry>, trailer: Entry)
    requires cur <= |s|
    decreases |es|
  {
    if es == [] then Front(s[cur..], trailer)
    else Whole(s[cur..], es[0]) && Spells(s, cur + Size(es[0]), es[1..], trailer)
  }

  ghost predicate IsArchive(es: seq<Entry>, trailer: Entry) {
    (forall i :: 0 <= i < |es| ==> Regular(es[i])) && Encodable(trailer) && trailer.name == TRAILER
  }

  function VisitOf(at: nat, e: Entry): Visit {
    Visit(at + HEADER, |e.name|, at + DataAt(e), |e.data|, e.mode)
  }

  lemma SpelledReport(s: seq<Byte>, cur: nat, e: Entry)
    requires cur <= |s| && Whole(s[cur..], e)
    ensures Reports(s, VisitOf(cur, e), e)
  {
    hide Hex, Align4;
    SpelledName(s[cur..], e);
    Shifted(s, cur, HEADER, HEADER + |e.name|);
    Shifted(s, cur, DataAt(e), DataAt(e) + |e.data|);
  }

  /** A slice of the rest of the bytes. */
  lemma Shifted(s: seq<Byte>, cur: nat, i: nat, j: nat)
    requires cur <= |s| && i <= j <= |s| - cur
    ensures s[cur..][i..j] == s[cur + i..cur + j]
  {
  }

  /** Reading bytes that spell an archive reports exactly its entries, in order, and succeeds. */
  lemma {:induction false} SpelledReads(s: seq<Byte>, cur: nat, es: seq<Entry>, trailer: Entry)
    requires cur <= |s| && IsArchive(es, trailer) && Spells(s, cur, es, trailer)
    ensures Walk(s, cur).0 && ReportsAll(s, Walk(s, cur).1, es)
    decreases |es|
  {
    hide At, Front, Reports;
    if es == [] {
      SpelledHead(s[cur..], trailer);
    } else {
      var e := es[0];
      SpelledHead(s[cur..], e);
      SpelledReport(s, cur, e);
      SpelledReads(s, cur + Size(e), es[1..], trailer);
      assert Walk(s, cur).1 == [VisitOf(cur, e)] + Walk(s, cur + Size(e)).1;
    }
  }

  /** An encoded archive spells its entries. */
  lemma {:induction false} ArchiveSpells(before: seq<Byte>, es: seq<Entry>, trailer: Entry, junk: seq<Byte>)
    requires IsArchive(es, trailer)
    ensures Spells(before + Archive(es, trailer, junk), |before|, es, trailer)
    decreases |es|
  {
    hide Encode, Front;
    var s := before + Archive(es, trailer, junk);
    assert s[|before|..] == Archive(es, trailer, junk);
    if es == [] {
      EncodedSpells(trailer, junk);
    } else {
      var e, rest := es[0], Archive(es[1..], trailer, junk);
      assert Regular(e);
      EncodedSpells(e, rest);
      assert s == before + Encode(e) + rest;
      ArchiveSpells(before + Encode(e), es[1..], trailer, junk);
    }
  }

  /** Reading an archive reports exactly its entries, in order, and succeeds. */
  lemma RoundTrip(before: seq<Byte>, es: seq<Entry>, trailer: Entry, junk: seq<Byte>)
    requires IsArchive(es, trailer)
    ensures var s := before + Archive(es, trailer, junk);
            Walk(s, |before|).0 && ReportsAll(s, Walk(s, |before|).1, es)
  {
    hide Walk, Spells, Archive, ReportsAll;
    ArchiveSpells(before, es, trailer, junk);
    SpelledReads(before + Archive(es, trailer, junk), |before|, es, trailer);
  }

  // ----- every archive the reader accepts -----

  lemma {:induction false} HexBound(f: seq<Byte>)
    ensures Hex(f) < Pow16(|f|)
  {
    if f != [] { HexBound(f[..|f| - 1]); }
  }

  lemma Hex8Bound(f: seq<Byte>)
    requires |f| == 8
    ensures Hex(f) < LIMIT
  {
    assert Pow16(8) == 16 * 16 * Pow16(6) && Pow16(6) == 16 * 16 * Pow16(4) && Pow16(4) == 16 * 16 * Pow16(2) && Pow16(2) == 256;
    HexBound(f);
  }

  /** What the reader has checked when it does not refuse. */
  lemma AcceptedFields(t: seq<Byte>)
    requires At(t) != Bad
    ensures |t| >= HEADER && t[..6] == MAGIC
    ensures var n, f, m := Hex(t[94..102]), Hex(t[54..62]), Hex(t[14..22]);
            && 0 < n < LIMIT && 0 <= f < LIMIT && 0 <= m < LIMIT && HEADER + n <= |t|
            && var name, d := t[HEADER..HEADER + n - 1], Align4(HEADER + n);
            && t[HEADER..HEADER + n] == name + [0] && 0 !in name && (At(t) == End <==> name == TRAILER)
            && (At(t) != End ==> At(t) == Item(n - 1, d, f, m, d + Align4(f)) && d + Align4(f) <= |t|)
  {
    hide Hex, Align4;
    Hex8Bound(t[94..102]);
    Hex8Bound(t[54..62]);
    Hex8Bound(t[14..22]);
    AllButLast(t, HEADER, HEADER + Hex(t[94..102]));
  }

  /** The entry that accepted bytes start with; a trailer's data is not there, so it may be anything. */
  lemma ParseEntry(t: seq<Byte>) returns (e: Entry)
    requires At(t) != Bad
    ensures Encodable(e) && (At(t) == End <==> e.name == TRAILER) && Front(t, e) && (At(t).Item? ==> Whole(t, e) && At(t).next == Size(e))
  {
    hide Hex, Zeros, At, Align4;
    AcceptedFields(t);
    var n, f, m := Hex(t[94..102]), Hex(t[54..62]), Hex(t[14..22]);
    var d := Align4(HEADER + n);
    e := Entry(t[HEADER..HEADER + n - 1], if At(t).Item? then t[d..d + f] else Zeros(f), m, t[6..14], t[22..54], t[62..94], t[102..HEADER]);
  }

  /** Whatever the reader accepts spells an archive. */
  lemma {:induction false} AcceptedIsArchive(s: seq<Byte>, cur: nat) returns (es: seq<Entry>, trailer: Entry)
    requires cur <= |s| && Walk(s, cur).0
    ensures IsArchive(es, trailer) && Spells(s, cur, es, trailer)
    decreases |s| - cur
  {
    hide At, Front, Encodable;
    HeadInside(s[cur..]);
    var e := ParseEntry(s[cur..]);
    if At(s[cur..]) == End {
      es, trailer := [], e;
    } else {
      var rest;
      rest, trailer := AcceptedIsArchive(s, cur + At(s[cur..]).next);
      es := [e] + rest;
      assert es[1..] == rest;
    }
  }

  /** The reader accepts exactly the bytes that spell an archive. */
  lemma AcceptsExactly(s: seq<Byte>)
    ensures Walk(s, 0).0 <==> exists es, trailer :: IsArchive(es, trailer) && Spells(s, 0, es, trailer)
  {
    hide Walk, Spells, IsArchive;
    if Walk(s, 0).0 {
      var es, trailer := AcceptedIsArchive(s, 0);
    }
    if es, trailer :| IsArchive(es, trailer) && Spells(s, 0, es, trailer) {
      SpelledReads(s, 0, es, trailer);
    }
  }

  // ----- lookup -----

  /** `cpio_find`: the first entry of that name, provided the whole archive is well formed. */
  method Find(s: seq<Byte>, want: seq<Byte>) returns (found: bool, v: Visit)
    requires 0 !in want
    ensures found <==> Findable(s, want)
    ensures found ==> First(s, Walk(s, 0).1, want, v)
  {
    var ok, visits := Iterate(s);
    WalkInside(s, 0);
    hide Walk, Inside;
    found, v := Search(s, visits, want);
    if !ok { found := false; }
  }

  /** The callback of `cpio_find` over all reported entries: only the first match counts. */
  method Search(s: seq<Byte>, visits: seq<Visit>, want: seq<Byte>) returns (found: bool, v: Visit)
    requires 0 !in want && forall i :: 0 <= i < |visits| ==> Inside(s, visits[i])
    ensures found <==> exists i :: 0 <= i < |visits| && Named(s, visits[i], want)
    ensures found ==> First(s, visits, want, v)
  {
    found, v := false, Visit(0, 0, 0, 0, 0);
    ghost var at := 0;
    var i := 0;
    while i < |visits|
      invariant i <= |visits|
      invariant !found ==> forall j :: 0 <= j < i ==> !Named(s, visits[j], want)
      invariant found ==> at < i && visits[at] == v && Named(s, v, want) && forall k :: 0 <= k < at ==> !Named(s, visits[k], want)
    {
      if !found {
        var same := HasName(s, visits[i], want);
        if same {
          found, v, at := true, visits[i], i;
        }
      }
      i := i + 1;
    }
  }

  method HasName(s: seq<Byte>, v: Visit, want: seq<Byte>) returns (same: bool)
    requires 0 !in want && Inside(s, v)
    ensures same <==> Named(s, v, want)
  {
    var name := s[v.nameAt..v.nameAt + v.nameLen + 1];
    same := Same(name, want);
    assert name[..|name| - 1] == s[v.nameAt..v.nameAt + v.nameLen];
  }

  ghost predicate Named(s: seq<Byte>, v: Visit, want: seq<Byte>) {
    v.nameAt + v.nameLen <= |s| && s[v.nameAt..v.nameAt + v.nameLen] == want
  }

  /** The archive is well formed and reports an entry of that name. */
  ghost predicate Findable(s: seq<Byte>, want: seq<Byte>) {
    Walk(s, 0).0 && exists i :: 0 <= i < |Walk(s, 0).1| && Named(s, Walk(s, 0).1[i], want)
  }

  /** `v` is the first visit with the name. */
  ghost predicate First(s: seq<Byte>, visits: seq<Visit>, want: seq<Byte>, v: Visit) {
    exists j :: 0 <= j < |visits| && visits[j] == v && Named(s, v, want) && forall k :: 0 <= k < j ==> !Named(s, visits[k], want)
  }

  /** In bytes that spell an archive the lookup succeeds if and only if some entry has the name. */
  lemma FindsIff(s: seq<Byte>, es: seq<Entry>, trailer: Entry, want: seq<Byte>)
    requires IsArchive(es, trailer) && Spells(s, 0, es, trailer)
    ensures Findable(s, want) <==> exists i :: 0 <= i < |es| && es[i].name == want
  {
    SpelledReads(s, 0, es, trailer);
    var visits := Walk(s, 0).1;
    hide Walk, Spells;
    forall i | 0 <= i < |es| ensures Named(s, visits[i], want) <==> es[i].name == want {
      assert Reports(s, visits[i], es[i]);
    }
  }

  /** And it returns the data of the first such entry. */
  lemma FindsFirst(s: seq<Byte>, es: seq<Entry>, trailer: Entry, want: seq<Byte>, v: Visit) returns (i: nat)
    requires IsArchive(es, trailer) && Spells(s, 0, es, trailer) && First(s, Walk(s, 0).1, want, v)
    ensures i < |es| && es[i].name == want && (forall k :: 0 <= k < i ==> es[k].name != want)
    ensures Reports(s, v, es[i])
  {
    SpelledReads(s, 0, es, trailer);
    var visits := Walk(s, 0).1;
    hide Walk, Spells;
    i :| 0 <= i < |visits| && visits[i] == v && Named(s, v, want) && forall k :: 0 <= k < i ==> !Named(s, visits[k], want);
    assert Reports(s, visits[i], es[i]);
    forall k | 0 <= k < i ensures es[k].name != want { assert Reports(s, visits[k], es[k]); }
  }
}
