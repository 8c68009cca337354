/**
 * The identifier parsers: the binary security-identifier (SID) decoder and
 * the extraction of the common name from a distinguished name.
 */
module Parsing {
  import opened Results
  import opened Text
  import opened External

  type byte = x: int | 0 <= x < 256

  const TwoTo16: nat := 0x1_0000
  const TwoTo32: nat := 0x1_0000_0000
  const TwoTo48: nat := 0x1_0000_0000_0000

  /** The decoded fields of a SID. */
  datatype Sid = Sid(revision: nat, authority: nat, subAuthorities: seq<nat>)

  /** The field whose read ran out of input. */
  datatype SidField = Revision | SubAuthorityCount | IdentifierAuthority | SubAuthority

  /** A failed decode names the field that could not be read and carries the original bytes. */
  datatype SidError = SidError(field: SidField, sid: seq<byte>)

  /** A SID whose fields fit their binary widths (8, 8, 48 and 32 bits). */
  predicate WellFormed(sid: Sid) {
    && sid.revision < 256
    && |sid.subAuthorities| < 256
    && sid.authority < TwoTo48
    && forall i :: 0 <= i < |sid.subAuthorities| ==> sid.subAuthorities[i] < TwoTo32
  }

  /** The big-endian unsigned value of a byte string. */
  function BigEndian(bs: seq<byte>): nat {
    if bs == [] then 0 else BigEndian(bs[..|bs| - 1]) * 256 + bs[|bs| - 1]
  }

  /** The big-endian uint16 at `at`. */
  function Uint16BE(b: seq<byte>, at: nat): (v: nat)
    requires at + 2 <= |b|
    ensures v < TwoTo16
  {
    (b[at] as int) * 256 + b[at + 1]
  }

  /** The little-endian uint32 at `at`. */
  function Uint32LE(b: seq<byte>, at: nat): (v: nat)
    requires at + 4 <= |b|
    ensures v < TwoTo32
  {
    (b[at] as int) + (b[at + 1] as int) * 0x100 + (b[at + 2] as int) * 0x1_0000 + (b[at + 3] as int) * 0x100_0000
  }

  /** The identifier authority: three big-endian uint16 parts combined as p0<<32 + p1<<16 + p2. */
  function Authority(b: seq<byte>): (r: nat)
    requires |b| >= 8
    ensures r == BigEndian(b[2..8])
    ensures r < TwoTo48
  {
    ThreePartsBigEndian(b);
    Uint16BE(b, 2) * TwoTo32 + Uint16BE(b, 4) * TwoTo16 + Uint16BE(b, 6)
  }

  /** `count` little-endian uint32 values starting at `at`, in input order. */
  function SubAuthorities(b: seq<byte>, at: nat, count: nat): (subs: seq<nat>)
    requires at + 4 * count <= |b|
    ensures |subs| == count
    ensures forall i :: 0 <= i < count ==> subs[i] < TwoTo32
  {
    seq(count, i requires 0 <= i < count => Uint32LE(b, at + 4 * i))
  }

  /** The input is long enough for the header and the `b[1]` sub-authorities it announces. */
  predicate SidLayout(b: seq<byte>) {
    |b| >= 8 && |b| >= 8 + 4 * (b[1] as int)
  }

  /**
   * The fields a SID's bytes decode to: revision, sub-authority count, 6-byte
   * big-endian authority, then `count` little-endian 32-bit sub-authorities.
   * Reads run in that order and the first one that runs out of input fails.
   */
  function DecodeSid(b: seq<byte>): (r: Result<Sid, SidError>)
    ensures r.Ok? <==> SidLayout(b)
    ensures r.Err? ==> r.error.sid == b
    ensures r.Ok? ==> WellFormed(r.value) && |r.value.subAuthorities| == b[1]
  {
    if |b| < 1 then Err(SidError(Revision, b))
    else if |b| < 2 then Err(SidError(SubAuthorityCount, b))
    else if |b| < 8 then Err(SidError(IdentifierAuthority, b))
    else if |b| < 8 + 4 * (b[1] as int) then Err(SidError(SubAuthority, b))
    else
      Ok(Sid(b[0], Authority(b), SubAuthorities(b, 8, b[1])))
  }

  /** Three big-endian uint16 parts, weighted 2^32, 2^16 and 1, are the big-endian value of bytes 2 to 7. */
  lemma ThreePartsBigEndian(b: seq<byte>)
    requires |b| >= 8
    ensures Uint16BE(b, 2) * TwoTo32 + Uint16BE(b, 4) * TwoTo16 + Uint16BE(b, 6) == BigEndian(b[2..8])
  {
    var a := b[2..8];
    var v: seq<int> := b[2..8];
    assert a[..1][..0] == [];
    assert BigEndian(a[..1]) == v[0];
    assert a[..2][..1] == a[..1];
    assert BigEndian(a[..2]) == v[0] * 256 + v[1];
    assert a[..3][..2] == a[..2];
    assert BigEndian(a[..3]) == (v[0] * 256 + v[1]) * 256 + v[2];
    assert a[..4][..3] == a[..3];
    assert BigEndian(a[..4]) == ((v[0] * 256 + v[1]) * 256 + v[2]) * 256 + v[3];
    assert a[..5][..4] == a[..4];
    assert BigEndian(a[..5]) == (((v[0] * 256 + v[1]) * 256 + v[2]) * 256 + v[3]) * 256 + v[4];
    assert a[..6][..5] == a[..5];
    assert a[..6] == a;
    assert BigEndian(a) == ((((v[0] * 256 + v[1]) * 256 + v[2]) * 256 + v[3]) * 256 + v[4]) * 256 + v[5];
  }

  /** Bytes after the announced sub-authorities are ignored. */
  lemma DecodeIgnoresTrailingBytes(b: seq<byte>, extra: seq<byte>)
    requires SidLayout(b)
    ensures DecodeSid(b + extra) == DecodeSid(b)
  {
    var c := b + extra;
    assert c[..|b|] == b;
    assert SubAuthorities(c, 8, b[1]) == SubAuthorities(b, 8, b[1]);
  }

  /** The two bytes of a uint16, most significant first. */
  function Uint16BEBytes(x: nat): (bs: seq<byte>)
    requires x < TwoTo16
    ensures |bs| == 2 && Uint16BE(bs, 0) == x
  {
    [x / 256, x % 256]
  }

  /** The four bytes of a uint32, least significant first. */
  function Uint32LEBytes(x: nat): (bs: seq<byte>)
    requires x < TwoTo32
    ensures |bs| == 4 && Uint32LE(bs, 0) == x
  {
    var q1 := x / 256;
    var q2 := q1 / 256;
    [x % 256, q1 % 256, q2 % 256, q2 / 256]
  }

  function EncodeSubAuthorities(subs: seq<nat>): (bs: seq<byte>)
    requires forall i :: 0 <= i < |subs| ==> subs[i] < TwoTo32
    ensures |bs| == 4 * |subs|
  {
    if subs == [] then [] else Uint32LEBytes(subs[0]) + EncodeSubAuthorities(subs[1..])
  }

  /** The binary layout of a well-formed SID, the inverse of DecodeSid. */
  function EncodeSid(sid: Sid): (b: seq<byte>)
    requires WellFormed(sid)
    ensures SidLayout(b) && |b| == 8 + 4 * |sid.subAuthorities|
  {
    var q := sid.authority / TwoTo16;
    [sid.revision, |sid.subAuthorities|]
      + Uint16BEBytes(q / TwoTo16) + Uint16BEBytes(q % TwoTo16) + Uint16BEBytes(sid.authority % TwoTo16)
      + EncodeSubAuthorities(sid.subAuthorities)
  }

  /** Bytes appended after a four-byte group change neither its uint32 nor what follows it. */
  lemma Uint32LEPrefix(p: seq<byte>, q: seq<byte>)
    requires |p| == 4
    ensures Uint32LE(p + q, 0) == Uint32LE(p, 0)
    ensures (p + q)[4..] == q
  {
    var e := p + q;
    assert e[0] == p[0] && e[1] == p[1] && e[2] == p[2] && e[3] == p[3];
  }

  /** An encoding starts with the four bytes of the first value, followed by the encoding of the others. */
  lemma EncodeSubAuthoritiesSplit(subs: seq<nat>)
    requires subs != [] && forall i :: 0 <= i < |subs| ==> subs[i] < TwoTo32
    ensures Uint32LE(EncodeSubAuthorities(subs), 0) == subs[0]
    ensures EncodeSubAuthorities(subs)[4..] == EncodeSubAuthorities(subs[1..])
  {
    Uint32LEPrefix(Uint32LEBytes(subs[0]), EncodeSubAuthorities(subs[1..]));
  }

  /** The first four bytes of an encoding are the first value, the rest encode the others. */
  lemma EncodeSubAuthoritiesHead(subs: seq<nat>, b: seq<byte>, at: nat)
    requires subs != [] && forall i :: 0 <= i < |subs| ==> subs[i] < TwoTo32
    requires at + 4 * |subs| <= |b| && b[at..at + 4 * |subs|] == EncodeSubAuthorities(subs)
    ensures Uint32LE(b, at) == subs[0]
    ensures b[at + 4..at + 4 * |subs|] == EncodeSubAuthorities(subs[1..])
  {
    var window := b[at..at + 4 * |subs|];
    EncodeSubAuthoritiesSplit(subs);
    assert Uint32LE(b, at) == Uint32LE(window, 0) by {
      assert window[0] == b[at] && window[1] == b[at + 1] && window[2] == b[at + 2] && window[3] == b[at + 3];
    }
    assert b[at + 4..at + 4 * |subs|] == window[4..];
  }

  /** Reading `count` values is reading one and then `count - 1` more, four bytes on. */
  lemma SubAuthoritiesCons(b: seq<byte>, at: nat, count: nat)
    requires count > 0 && at + 4 * count <= |b|
    ensures SubAuthorities(b, at, count) == [Uint32LE(b, at)] + SubAuthorities(b, at + 4, count - 1)
  {
    var whole, rest := SubAuthorities(b, at, count), SubAuthorities(b, at + 4, count - 1);
    forall i | 1 <= i < count ensures whole[i] == rest[i - 1] {
      assert at + 4 * i == (at + 4) + 4 * (i - 1);
    }
  }

  lemma {:induction false} EncodeSubAuthoritiesAt(subs: seq<nat>, b: seq<byte>, at: nat)
    requires forall i :: 0 <= i < |subs| ==> subs[i] < TwoTo32
    requires at + 4 * |subs| <= |b| && b[at..at + 4 * |subs|] == EncodeSubAuthorities(subs)
    ensures SubAuthorities(b, at, |subs|) == subs
  {
    if subs != [] {
      EncodeSubAuthoritiesHead(subs, b, at);
      EncodeSubAuthoritiesAt(subs[1..], b, at + 4);
      SubAuthoritiesCons(b, at, |subs|);
      assert [subs[0]] + subs[1..] == subs;
    }
  }

  /** Decoding the encoding of a well-formed SID gives it back. */
  lemma DecodeEncodeSid(sid: Sid)
    requires WellFormed(sid)
    ensures DecodeSid(EncodeSid(sid)) == Ok(sid)
  {
    var b := EncodeSid(sid);
    var a := sid.authority;
    var q := a / TwoTo16;
    assert Uint16BE(b, 2) == q / TwoTo16 by {
      assert b[2..4] == Uint16BEBytes(q / TwoTo16);
    }
    assert Uint16BE(b, 4) == q % TwoTo16 by {
      assert b[4..6] == Uint16BEBytes(q % TwoTo16);
    }
    assert Uint16BE(b, 6) == a % TwoTo16 by {
      assert b[6..8] == Uint16BEBytes(a % TwoTo16);
    }
    assert Authority(b) == a by {
      assert a == q * TwoTo16 + a % TwoTo16;
      assert q == (q / TwoTo16) * TwoTo16 + q % TwoTo16;
    }
    assert b[8..] == EncodeSubAuthorities(sid.subAuthorities);
    EncodeSubAuthoritiesAt(sid.subAuthorities, b, 8);
  }

  /** The "-S" suffix for each sub-authority, in order. */
  function SubAuthorityText(subs: seq<nat>): (t: string)
    ensures subs != [] ==> |t| >= 2 && t[0] == '-'
    ensures forall i :: 0 <= i < |t| ==> t[i] == '-' || '0' <= t[i] <= '9'
  {
    if subs == [] then "" else SubAuthorityText(subs[..|subs| - 1]) + "-" + Dec(subs[|subs| - 1])
  }

  /** The canonical text of a SID: S-<revision>-<authority>-<sub1>-...-<subN>. */
  function SidText(sid: Sid): (t: string)
    ensures |t| >= 5 && t[..2] == "S-"
    ensures forall i :: 2 <= i < |t| ==> t[i] == '-' || '0' <= t[i] <= '9'
  {
    "S-" + Dec(sid.revision) + "-" + Dec(sid.authority) + SubAuthorityText(sid.subAuthorities)
  }

  /**
   * sidToString: decode the header with a cursor, read the sub-authorities,
   * then grow the text one "-S" at a time.
   */
  method SidToString(b: seq<byte>) returns (r: Result<string, SidError>)
    ensures r.Ok? <==> SidLayout(b)
    ensures DecodeSid(b).Err? ==> r == Err(DecodeSid(b).error)
    ensures DecodeSid(b).Ok? ==> r == Ok(SidText(DecodeSid(b).value))
  {
    var pos := 0;
    if |b| - pos < 1 {
      return Err(SidError(Revision, b));
    }
    var revision := b[pos];
    pos := pos + 1;
    if |b| - pos < 1 {
      return Err(SidError(SubAuthorityCount, b));
    }
    var subAuthorityCount := b[pos];
    pos := pos + 1;
    if |b| - pos < 6 {
      return Err(SidError(IdentifierAuthority, b));
    }
    var parts := [Uint16BE(b, pos), Uint16BE(b, pos + 2), Uint16BE(b, pos + 4)];
    pos := pos + 6;
    var identifierAuthority := parts[0] * TwoTo32 + parts[1] * TwoTo16 + parts[2];
    if |b| - pos < 4 * (subAuthorityCount as int) {
      return Err(SidError(SubAuthority, b));
    }
    var subAuthority := SubAuthorities(b, pos, subAuthorityCount);

    var result := "S-" + Dec(revision) + "-" + Dec(identifierAuthority);
    result := AppendSubAuthorities(result, subAuthority);
    assert DecodeSid(b) == Ok(Sid(revision, identifierAuthority, subAuthority));
    return Ok(result);
  }

  /** The loop of sidToString: append "-" and the decimal form of each sub-authority, in order. */
  method AppendSubAuthorities(head: string, subs: seq<nat>) returns (result: string)
    ensures result == head + SubAuthorityText(subs)
  {
    result := head;
    var i := 0;
    while i < |subs|
      invariant 0 <= i <= |subs|
      invariant result == head + SubAuthorityText(subs[..i])
    {
      SubAuthorityTextSnoc(subs, i);
      result := result + "-" + Dec(subs[i]);
      i := i + 1;
    }
    assert subs[..i] == subs;
  }

  /** The text of one more sub-authority is the text so far, a separator and its decimal form. */
  lemma SubAuthorityTextSnoc(subs: seq<nat>, i: nat)
    requires i < |subs|
    ensures SubAuthorityText(subs[..i + 1]) == SubAuthorityText(subs[..i]) + "-" + Dec(subs[i])
  {
    assert subs[..i + 1][..i] == subs[..i];
  }

  /** Read the textual form back: "S", then decimal fields for revision, authority and each sub-authority. */
  function ParseSidText(t: string): (r: Option<Sid>)
    ensures r.Some? ==> |r.value.subAuthorities| == |Fields(t)| - 3
  {
    ParseFields(Fields(t))
  }

  function ParseFields(fs: seq<string>): (r: Option<Sid>)
    ensures r.Some? ==> |r.value.subAuthorities| == |fs| - 3
  {
    if |fs| >= 3 && fs[0] == "S" && forall i :: 1 <= i < |fs| ==> IsNumeral(fs[i]) then
      Some(Sid(DecValue(fs[1]), DecValue(fs[2]), NumeralValues(fs[3..])))
    else None
  }

  /** The numbers a sequence of numerals spells, in order. */
  function NumeralValues(ds: seq<string>): (vs: seq<nat>)
    requires forall i :: 0 <= i < |ds| ==> IsNumeral(ds[i])
    ensures |vs| == |ds|
  {
    seq(|ds|, i requires 0 <= i < |ds| && IsNumeral(ds[i]) => DecValue(ds[i]))
  }

  function DecAll(subs: seq<nat>): (ds: seq<string>)
    ensures |ds| == |subs|
    ensures forall i :: 0 <= i < |subs| ==> ds[i] == Dec(subs[i])
  {
    seq(|subs|, i requires 0 <= i < |subs| => Dec(subs[i]))
  }

  lemma {:induction false} FieldsOfSubAuthorityText(head: string, subs: seq<nat>)
    ensures Fields(head + SubAuthorityText(subs)) == Fields(head) + DecAll(subs)
  {
    if subs == [] {
      assert head + SubAuthorityText(subs) == head;
    } else {
      var pre, last := subs[..|subs| - 1], subs[|subs| - 1];
      var front := head + SubAuthorityText(pre);
      assert Fields(head + SubAuthorityText(subs)) == Fields(front + "-" + Dec(last)) by {
        assert head + SubAuthorityText(subs) == front + "-" + Dec(last);
      }
      FieldsOfJoin(front, Dec(last));
      DecIsOneField(last);
      FieldsOfSubAuthorityText(head, pre);
      DecAllSnoc(subs);
    }
  }

  /** The decimal forms of a sequence are those of all but its last element, then the last one's. */
  lemma DecAllSnoc(subs: seq<nat>)
    requires subs != []
    ensures DecAll(subs) == DecAll(subs[..|subs| - 1]) + [Dec(subs[|subs| - 1])]
  {
    var pre := subs[..|subs| - 1];
    assert forall i :: 0 <= i < |pre| ==> DecAll(subs)[i] == DecAll(pre)[i];
  }

  /** The text of a SID splits into "S" and one decimal field per number, in order. */
  lemma SidTextFields(sid: Sid)
    ensures Fields(SidText(sid)) == ["S", Dec(sid.revision), Dec(sid.authority)] + DecAll(sid.subAuthorities)
  {
    var r, a := Dec(sid.revision), Dec(sid.authority);
    var head := "S-" + r + "-" + a;
    assert Fields(head) == ["S", r, a] by {
      assert head == "S" + "-" + (r + "-" + a);
      FieldsOfJoin("S", r + "-" + a);
      FieldsOfPlain("S");
      FieldsOfJoin(r, a);
      DecIsOneField(sid.revision);
      DecIsOneField(sid.authority);
    }
    FieldsOfSubAuthorityText(head, sid.subAuthorities);
  }

  /** Reading the text of a SID back gives every number exactly. */
  lemma SidTextRoundTrip(sid: Sid)
    ensures ParseSidText(SidText(sid)) == Some(sid)
  {
    SidTextFields(sid);
    ParseFieldsOfNumbers(sid.revision, sid.authority, sid.subAuthorities);
  }

  /** The fields of DecAll are numerals, and reading them back gives the numbers. */
  lemma DecAllValues(subs: seq<nat>)
    ensures forall i :: 0 <= i < |subs| ==> IsNumeral(DecAll(subs)[i])
    ensures NumeralValues(DecAll(subs)) == subs
  {
    var ds := DecAll(subs);
    forall i | 0 <= i < |subs| ensures IsNumeral(ds[i]) && DecValue(ds[i]) == subs[i] {
      DecValueOfDec(subs[i]);
    }
  }

  /** Fields "S", x, y and numerals ds parse to the values they spell. */
  lemma ParseFieldsOfNumerals(x: string, y: string, ds: seq<string>)
    requires IsNumeral(x) && IsNumeral(y)
    requires forall i :: 0 <= i < |ds| ==> IsNumeral(ds[i])
    ensures ParseFields(["S", x, y] + ds)
         == Some(Sid(DecValue(x), DecValue(y), NumeralValues(ds)))
  {
    var fs := ["S", x, y] + ds;
    forall i | 1 <= i < |fs| ensures IsNumeral(fs[i]) {
      if i >= 3 {
        assert fs[i] == ds[i - 3];
      }
    }
    assert fs[3..] == ds;
  }

  lemma ParseFieldsOfNumbers(r: nat, a: nat, subs: seq<nat>)
    ensures ParseFields(["S", Dec(r), Dec(a)] + DecAll(subs)) == Some(Sid(r, a, subs))
  {
    var ds := DecAll(subs);
    DecAllValues(subs);
    ParseFieldsOfNumerals(Dec(r), Dec(a), ds);
    DecValueOfDec(r);
    DecValueOfDec(a);
  }

  /**
   * Whatever sidToString returns is the canonical text of exactly the fields
   * in the input: revision b[0], the big-endian authority of bytes 2..7, and
   * the b[1] sub-authorities in input order.
   */
  lemma SidToStringFieldsExact(b: seq<byte>)
    requires SidLayout(b)
    ensures ParseSidText(SidText(DecodeSid(b).value)) ==
            Some(Sid(b[0], BigEndian(b[2..8]), SubAuthorities(b, 8, b[1])))
    ensures |Fields(SidText(DecodeSid(b).value))| == 3 + (b[1] as int)
  {
    SidTextRoundTrip(DecodeSid(b).value);
    SidTextFields(DecodeSid(b).value);
  }

  /**
   * strings.EqualFold(t, "CN"). Under Unicode simple case folding the only
   * characters equivalent to `c` and `n` are their ASCII cases, so this is an
   * ASCII case-insensitive comparison.
   */
  predicate IsCNType(t: string) {
    |t| == 2 && (t[0] == 'c' || t[0] == 'C') && (t[1] == 'n' || t[1] == 'N')
  }

  /** No attribute pair of any RDN is a CN. */
  predicate NoCN(rdns: seq<RelativeDN>) {
    forall i, j :: 0 <= i < |rdns| && 0 <= j < |rdns[i].attributes| ==> !IsCNType(rdns[i].attributes[j].attrType)
  }

  /**
   * Pair `j` of RDN `i` is the first CN in scanning order: RDNs in order, and
   * the pairs of each RDN in order.
   */
  predicate FirstCNAt(rdns: seq<RelativeDN>, i: int, j: int) {
    && 0 <= i < |rdns| && 0 <= j < |rdns[i].attributes|
    && IsCNType(rdns[i].attributes[j].attrType)
    && NoCN(rdns[..i])
    && forall k :: 0 <= k < j ==> !IsCNType(rdns[i].attributes[k].attrType)
  }

  /** The value of the first CN pair of one RDN. */
  function FirstCNOf(attrs: seq<AttributeTypeAndValue>): (r: Option<string>)
    ensures r.None? <==> forall k :: 0 <= k < |attrs| ==> !IsCNType(attrs[k].attrType)
    ensures r.Some? ==> exists j :: 0 <= j < |attrs| && IsCNType(attrs[j].attrType) && attrs[j].value == r.value
                                    && forall k :: 0 <= k < j ==> !IsCNType(attrs[k].attrType)
  {
    if attrs == [] then None
    else if IsCNType(attrs[0].attrType) then Some(attrs[0].value)
    else
      var r := FirstCNOf(attrs[1..]);
      assert r.Some? ==> exists j :: 0 <= j < |attrs| && IsCNType(attrs[j].attrType) && attrs[j].value == r.value
                                     && forall k :: 0 <= k < j ==> !IsCNType(attrs[k].attrType) by {
        if r.Some? {
          var j :| 0 <= j < |attrs[1..]| && IsCNType(attrs[1..][j].attrType) && attrs[1..][j].value == r.value
                   && forall k :: 0 <= k < j ==> !IsCNType(attrs[1..][k].attrType);
          assert attrs[j + 1] == attrs[1..][j];
          assert forall k :: 0 <= k < j + 1 ==> !IsCNType(attrs[k].attrType) by {
            forall k | 0 <= k < j + 1 ensures !IsCNType(attrs[k].attrType) {
              if k > 0 {
                assert attrs[k] == attrs[1..][k - 1];
              }
            }
          }
        }
      }
      r
  }

  /** The value of the first CN pair of a parsed DN, scanning RDNs in order. */
  function FirstCN(rdns: seq<RelativeDN>): (r: Option<string>)
    ensures r.None? <==> NoCN(rdns)
    ensures r.Some? ==> exists i, j :: FirstCNAt(rdns, i, j) && rdns[i].attributes[j].value == r.value
  {
    if rdns == [] then None
    else
      match FirstCNOf(rdns[0].attributes)
      case Some(v) =>
        assert exists i, j :: FirstCNAt(rdns, i, j) && rdns[i].attributes[j].value == v by {
          var j :| 0 <= j < |rdns[0].attributes| && IsCNType(rdns[0].attributes[j].attrType)
                   && rdns[0].attributes[j].value == v
                   && forall k :: 0 <= k < j ==> !IsCNType(rdns[0].attributes[k].attrType);
          assert FirstCNAt(rdns, 0, j);
        }
        Some(v)
      case None =>
        var r := FirstCN(rdns[1..]);
        NoCNCons(rdns);
        assert r.Some? ==> exists i, j :: FirstCNAt(rdns, i, j) && rdns[i].attributes[j].value == r.value by {
          if r.Some? {
            var i, j :| FirstCNAt(rdns[1..], i, j) && rdns[1..][i].attributes[j].value == r.value;
            FirstCNAtCons(rdns, i, j);
          }
        }
        r
  }

  /** When the first RDN has no CN pair, the DN has one exactly when the remaining RDNs do. */
  lemma NoCNCons(rdns: seq<RelativeDN>)
    requires rdns != [] && forall k :: 0 <= k < |rdns[0].attributes| ==> !IsCNType(rdns[0].attributes[k].attrType)
    ensures NoCN(rdns) <==> NoCN(rdns[1..])
  {
    if NoCN(rdns[1..]) {
      forall i, j | 0 <= i < |rdns| && 0 <= j < |rdns[i].attributes|
        ensures !IsCNType(rdns[i].attributes[j].attrType)
      {
        if i > 0 {
          assert rdns[i] == rdns[1..][i - 1];
        }
      }
    } else {
      var i, j :| 0 <= i < |rdns[1..]| && 0 <= j < |rdns[1..][i].attributes|
                  && IsCNType(rdns[1..][i].attributes[j].attrType);
      assert rdns[i + 1] == rdns[1..][i];
    }
  }

  /** When the first RDN has no CN pair, the first CN of the remaining RDNs is the first CN of the DN, one RDN on. */
  lemma FirstCNAtCons(rdns: seq<RelativeDN>, i: int, j: int)
    requires rdns != [] && forall k :: 0 <= k < |rdns[0].attributes| ==> !IsCNType(rdns[0].attributes[k].attrType)
    requires FirstCNAt(rdns[1..], i, j)
    ensures FirstCNAt(rdns, i + 1, j) && rdns[i + 1] == rdns[1..][i]
  {
    assert rdns[i + 1] == rdns[1..][i];
    forall i', j' | 0 <= i' < i + 1 && 0 <= j' < |rdns[i'].attributes|
      ensures !IsCNType(rdns[i'].attributes[j'].attrType)
    {
      if i' > 0 {
        assert rdns[i'] == rdns[1..][..i][i' - 1];
      }
    }
    assert NoCN(rdns[..i + 1]);
  }

  /**
   * parseCN: the value of the first attribute whose type is CN (any case),
   * scanning RDNs in order and the pairs of each RDN in order; the input
   * itself when the DN does not parse, has no RDNs, or has no CN.
   */
  function ParseCN(dn: string, parseDN: string -> Option<seq<RelativeDN>>): (cn: string)
    ensures parseDN(dn).None? ==> cn == dn
    ensures parseDN(dn).Some? && parseDN(dn).value == [] ==> cn == dn
    ensures parseDN(dn).Some? && NoCN(parseDN(dn).value) ==> cn == dn
    ensures forall i, j :: parseDN(dn).Some? && FirstCNAt(parseDN(dn).value, i, j) ==>
                             cn == parseDN(dn).value[i].attributes[j].value
  {
    match parseDN(dn)
    case None => dn
    case Some(rdns) =>
      if |rdns| == 0 then dn
      else
        match FirstCN(rdns)
        case Some(v) =>
          FirstCNUnique(rdns);
          v
        case None => dn
  }

  /** The first CN position is unique. */
  lemma FirstCNUnique(rdns: seq<RelativeDN>)
    ensures forall i, j, i', j' :: FirstCNAt(rdns, i, j) && FirstCNAt(rdns, i', j') ==> i == i' && j == j'
  {
  }

  /** parseCN yields either its input or the value of one of the DN's attribute pairs. */
  lemma ParseCNOrigin(dn: string, parseDN: string -> Option<seq<RelativeDN>>)
    ensures var cn := ParseCN(dn, parseDN);
            cn == dn || (parseDN(dn).Some? &&
              exists i, j :: 0 <= i < |parseDN(dn).value| && 0 <= j < |parseDN(dn).value[i].attributes| &&
                             cn == parseDN(dn).value[i].attributes[j].value)
  {
  }
}
