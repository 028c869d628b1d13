/** The bytes of one segment file: records, each a 4-byte big-endian length followed by the payload. */
module SegmentFormat {
  import opened Options
  import Bytes
  import opened RaftLog

  const HEADER := 4

  /** The log's codec, kept abstract: an encoder and a decoder of single entries. */
  datatype Codec = Codec(encode: Entry -> string, decode: string -> Option<Entry>)

  /** An entry the format can hold: it decodes back, and its length fits the header. */
  ghost predicate Encodable(codec: Codec, e: Entry) {
    codec.decode(codec.encode(e)) == Some(e) && |codec.encode(e)| < Bytes.UINT32_LIMIT
  }

  ghost predicate AllEncodable(codec: Codec, es: seq<Entry>) {
    forall e :: e in es ==> Encodable(codec, e)
  }

  /** One record; a longer payload would have its length cut to the low four bytes. */
  function Frame(record: string): string {
    Bytes.BigEndian(|record|, HEADER) + record
  }

  /** The length takes four bytes, most significant first. */
  lemma FrameBytes(record: string)
    ensures Frame(record) ==
              [(|record| / 0x100_0000 % 256) as char, (|record| / 0x1_0000 % 256) as char,
               (|record| / 0x100 % 256) as char, (|record| % 256) as char] + record
  {
    Bytes.BigEndianBytes(|record|);
  }

  function Frames(codec: Codec, es: seq<Entry>): string {
    if es == [] then [] else Frames(codec, es[..|es| - 1]) + Frame(codec.encode(es[|es| - 1]))
  }

  datatype ReadResult = Entries(entries: seq<Entry>) | Corrupt

  function Prepend(es: seq<Entry>, rest: ReadResult): ReadResult {
    match rest
    case Entries(more) => Entries(es + more)
    case Corrupt => Corrupt
  }

  /** Reading a file: a cut-off header ends it quietly, a cut-off or undecodable payload is an error. */
  function Read(codec: Codec, bytes: string): ReadResult
    decreases |bytes|
  {
    if |bytes| < HEADER then Entries([])
    else
      var length := Bytes.FromBigEndian(bytes[..HEADER]);
      if |bytes| - HEADER < length then Corrupt
      else
        match codec.decode(bytes[HEADER..HEADER + length])
        case None => Corrupt
        case Some(e) => Prepend([e], Read(codec, bytes[HEADER + length..]))
  }

  /** The reading loop over one file. */
  method ReadSegment(codec: Codec, file: string) returns (result: ReadResult)
    ensures result == Read(codec, file)
  {
    hide Read;
    var entries: seq<Entry> := [];
    var offset := 0;
    ReadBegins(codec, file);
    while |file| - offset >= HEADER
      invariant offset <= |file|
      invariant Read(codec, file) == Prepend(entries, Read(codec, file[offset..]))
      decreases |file| - offset
    {
      ReadStep(codec, file, offset);
      var length := Bytes.FromBigEndian(file[offset..offset + HEADER]);
      if |file| - offset - HEADER < length {
        return Corrupt;
      }
      var decoded := codec.decode(file[offset + HEADER..offset + HEADER + length]);
      if decoded.None? {
        return Corrupt;
      }
      PrependAssociates(entries, decoded.value, Read(codec, file[offset + HEADER + length..]));
      entries := entries + [decoded.value];
      offset := offset + HEADER + length;
    }
    ReadEnds(codec, file[offset..], entries);
    return Entries(entries);
  }

  lemma ReadBegins(codec: Codec, file: string)
    ensures Read(codec, file) == Prepend([], Read(codec, file[0..]))
  {
    assert file[0..] == file;
    if Read(codec, file).Entries? {
      assert [] + Read(codec, file).entries == Read(codec, file).entries;
    }
  }

  lemma ReadEnds(codec: Codec, rest: string, entries: seq<Entry>)
    requires |rest| < HEADER
    ensures Prepend(entries, Read(codec, rest)) == Entries(entries)
  {
    assert entries + [] == entries;
  }

  lemma ReadStep(codec: Codec, file: string, offset: nat)
    requires offset + HEADER <= |file|
    ensures var length := Bytes.FromBigEndian(file[offset..offset + HEADER]);
            Read(codec, file[offset..]) ==
              if |file| - offset - HEADER < length then Corrupt
              else
                match codec.decode(file[offset + HEADER..offset + HEADER + length])
                case None => Corrupt
                case Some(e) => Prepend([e], Read(codec, file[offset + HEADER + length..]))
  {
    hide Prepend;
    var rest := file[offset..];
    var length := Bytes.FromBigEndian(file[offset..offset + HEADER]);
    assert rest[..HEADER] == file[offset..offset + HEADER];
    if length <= |file| - offset - HEADER {
      assert rest[HEADER..HEADER + length] == file[offset + HEADER..offset + HEADER + length];
      assert rest[HEADER + length..] == file[offset + HEADER + length..];
    }
  }

  lemma PrependAssociates(es: seq<Entry>, e: Entry, rest: ReadResult)
    ensures Prepend(es, Prepend([e], rest)) == Prepend(es + [e], rest)
  {
    if rest.Entries? {
      assert es + ([e] + rest.entries) == (es + [e]) + rest.entries;
    }
  }

  lemma ReadOneRecord(codec: Codec, e: Entry, tail: string)
    requires Encodable(codec, e)
    ensures Read(codec, Frame(codec.encode(e)) + tail) == Prepend([e], Read(codec, tail))
  {
    var record := codec.encode(e);
    var bytes := Frame(record) + tail;
    Bytes.WidthsSuffice();
    Bytes.BigEndianRoundTrip(|record|, HEADER);
    assert bytes[..HEADER] == Bytes.BigEndian(|record|, HEADER);
    assert bytes[HEADER..HEADER + |record|] == record;
    assert bytes[HEADER + |record|..] == tail;
  }

  /** Whole records read back one by one, whatever follows them. */
  lemma {:induction false} ReadWholeRecords(codec: Codec, es: seq<Entry>, tail: string)
    requires AllEncodable(codec, es)
    ensures Read(codec, Frames(codec, es) + tail) == Prepend(es, Read(codec, tail))
    decreases |es|
  {
    if es == [] {
      assert Frames(codec, es) + tail == tail;
    } else {
      var front, e := es[..|es| - 1], es[|es| - 1];
      var record := Frame(codec.encode(e));
      assert Frames(codec, es) + tail == Frames(codec, front) + (record + tail);
      ReadWholeRecords(codec, front, record + tail);
      ReadOneRecord(codec, e, tail);
      PrependAssociates(front, e, Read(codec, tail));
      assert front + [e] == es;
    }
  }

  /** A file made of records reads back as exactly those entries. */
  lemma ReadBack(codec: Codec, es: seq<Entry>)
    requires AllEncodable(codec, es)
    ensures Read(codec, Frames(codec, es)) == Entries(es)
  {
    ReadWholeRecords(codec, es, "");
    assert Frames(codec, es) + "" == Frames(codec, es);
  }

  /** How many whole records the first `n` bytes hold. */
  function WholeRecords(codec: Codec, es: seq<Entry>, n: nat): (count: nat)
    ensures count <= |es|
    ensures |Frames(codec, es[..count])| <= n
    ensures count < |es| ==> n < |Frames(codec, es[..count + 1])|
    decreases |es|
  {
    if |Frames(codec, es)| <= n then
      assert es[..|es|] == es;
      |es|
    else
      var front := es[..|es| - 1];
      var count := WholeRecords(codec, front, n);
      assert es[..count] == front[..count];
      assert count < |front| ==> es[..count + 1] == front[..count + 1];
      assert count == |front| ==> es[..count + 1] == es;
      count
  }

  lemma {:induction false} FramesPrefix(codec: Codec, es: seq<Entry>, k: nat)
    requires k <= |es|
    ensures Frames(codec, es[..k]) <= Frames(codec, es)
    decreases |es|
  {
    if k < |es| {
      FramesPrefix(codec, es[..|es| - 1], k);
      assert es[..|es| - 1][..k] == es[..k];
    } else {
      assert es[..k] == es;
    }
  }

  /** Reading a file cut off after any number of bytes: the whole records before the cut come back
      unless the cut falls inside a payload, and then the read fails. */
  lemma ReadTornFile(codec: Codec, es: seq<Entry>, n: nat)
    requires AllEncodable(codec, es) && n <= |Frames(codec, es)|
    ensures var k := WholeRecords(codec, es, n);
            var torn := n - |Frames(codec, es[..k])|;
            Read(codec, Frames(codec, es)[..n]) == if torn < HEADER then Entries(es[..k]) else Corrupt
  {
    var k := WholeRecords(codec, es, n);
    var tail := TornTail(codec, es, n);
    ReadWholeRecords(codec, es[..k], tail);
    if |tail| >= HEADER {
      ReadTornRecord(codec, codec.encode(es[k]), |tail|);
    }
  }

  /** What follows the last whole record before the cut: a proper part of the next record. */
  lemma TornTail(codec: Codec, es: seq<Entry>, n: nat) returns (tail: string)
    requires AllEncodable(codec, es) && n <= |Frames(codec, es)|
    ensures Frames(codec, es)[..n] == Frames(codec, es[..WholeRecords(codec, es, n)]) + tail
    ensures tail != [] ==>
              var k := WholeRecords(codec, es, n);
              k < |es| && Encodable(codec, es[k])
              && |tail| < |Frame(codec.encode(es[k]))| && tail == Frame(codec.encode(es[k]))[..|tail|]
  {
    var k := WholeRecords(codec, es, n);
    FramesPrefix(codec, es, k);
    tail := Frames(codec, es)[|Frames(codec, es[..k])|..n];
    assert es[..|es|] == es;
    if k < |es| {
      NextRecord(codec, es, k);
    }
  }

  lemma NextRecord(codec: Codec, es: seq<Entry>, k: nat)
    requires AllEncodable(codec, es) && k < |es|
    ensures Encodable(codec, es[k])
    ensures Frames(codec, es[..k]) + Frame(codec.encode(es[k])) == Frames(codec, es[..k + 1]) <= Frames(codec, es)
  {
    assert es[..k + 1][..k] == es[..k] && es[k] in es;
    FramesPrefix(codec, es, k + 1);
  }

  lemma ReadTornRecord(codec: Codec, record: string, n: nat)
    requires |record| < Bytes.UINT32_LIMIT && HEADER <= n < HEADER + |record|
    ensures Read(codec, Frame(record)[..n]) == Corrupt
  {
    Bytes.WidthsSuffice();
    Bytes.BigEndianRoundTrip(|record|, HEADER);
    assert Frame(record)[..n][..HEADER] == Bytes.BigEndian(|record|, HEADER);
  }

  // Writing behind a cut-off header, which reading tolerates but leaves in the file.

  /** Nothing else decodes to the entry. */
  ghost predicate OnlyEncoding(codec: Codec, e: Entry) {
    forall text :: codec.decode(text) == Some(e) ==> text == codec.encode(e)
  }

  lemma PrependExactly(es: seq<Entry>, rest: ReadResult, e: Entry)
    ensures Prepend(es, rest) == Entries(es + [e]) <==> rest == Entries([e])
  {
    if rest.Entries? && es + rest.entries == es + [e] {
      assert rest.entries == (es + rest.entries)[|es|..] == (es + [e])[|es|..] == [e];
    }
  }

  /** A record behind some left-over bytes is read back exactly when the header these bytes make up with it
      happens to have its length and the bytes behind that header happen to be the record. */
  lemma AppendBehindBytesExactly(codec: Codec, es: seq<Entry>, t: string, e: Entry)
    requires AllEncodable(codec, es) && Encodable(codec, e) && OnlyEncoding(codec, e) && |t| < HEADER
    ensures var record := codec.encode(e);
            var tail := t + Frame(record);
            Read(codec, Frames(codec, es) + tail) == Entries(es + [e]) <==>
              Bytes.FromBigEndian(tail[..HEADER]) == |record| && tail[HEADER..HEADER + |record|] == record
  {
    hide Read, Frame;
    var record := codec.encode(e);
    var tail := t + Frame(record);
    assert |tail| == |t| + HEADER + |record| by { FrameLength(record); }
    ReadWholeRecords(codec, es, tail);
    PrependExactly(es, Read(codec, tail), e);
    ReadOneExactly(codec, tail, e);
  }

  lemma FrameLength(record: string)
    ensures |Frame(record)| == HEADER + |record|
  {
  }

  /** Bytes with no room for a second header read as one entry exactly when the first header and payload are its. */
  lemma ReadOneExactly(codec: Codec, bytes: string, e: Entry)
    requires codec.decode(codec.encode(e)) == Some(e) && OnlyEncoding(codec, e)
    requires HEADER + |codec.encode(e)| <= |bytes| < HEADER + |codec.encode(e)| + HEADER
    ensures Read(codec, bytes) == Entries([e]) <==>
              Bytes.FromBigEndian(bytes[..HEADER]) == |codec.encode(e)|
              && bytes[HEADER..HEADER + |codec.encode(e)|] == codec.encode(e)
  {
    hide Prepend;
    var length := Bytes.FromBigEndian(bytes[..HEADER]);
    if length <= |bytes| - HEADER && codec.decode(bytes[HEADER..HEADER + length]).Some? {
      OneRead(codec.decode(bytes[HEADER..HEADER + length]).value, Read(codec, bytes[HEADER + length..]), e);
    }
  }

  lemma OneRead(first: Entry, rest: ReadResult, e: Entry)
    ensures Prepend([first], rest) == Entries([e]) <==> first == e && rest == Entries([])
  {
    if rest.Entries? && [first] + rest.entries == [e] {
      assert ([first] + rest.entries)[0] == first;
      assert |rest.entries| == 0;
    }
  }

  /** For entries as the log's codec encodes them - not empty, the first byte not zero - and records below
      64 KiB: whatever one to three bytes a cut-off header left behind, the next record is not read back. */
  lemma AppendAfterTornHeader(codec: Codec, es: seq<Entry>, t: string, e: Entry)
    requires AllEncodable(codec, es) && Encodable(codec, e) && OnlyEncoding(codec, e) && |t| < HEADER
    requires var record := codec.encode(e); 0 < |record| < 65536 && record[0] != '\0'
    ensures Read(codec, Frames(codec, es) + (t + Frame(codec.encode(e)))) == Entries(es + [e]) <==> t == ""
  {
    var record := codec.encode(e);
    AppendBehindBytesExactly(codec, es, t, e);
    MisreadHeader(t, record);
  }

  lemma MisreadHeader(t: string, record: string)
    requires |t| < HEADER && 0 < |record| < 65536 && record[0] != '\0'
    ensures var tail := t + Frame(record);
            Bytes.FromBigEndian(tail[..HEADER]) == |record| && tail[HEADER..HEADER + |record|] == record <==> t == ""
  {
    var m := |record|;
    var h, tail := Bytes.BigEndian(m, HEADER), t + Frame(record);
    SmallHeader(m);
    var high, low := m / 256, m % 256;
    if t == "" {
      Bytes.WidthsSuffice();
      Bytes.BigEndianRoundTrip(m, HEADER);
      assert tail[..HEADER] == h && tail[HEADER..HEADER + m] == record;
    } else {
      FourBytes(tail[0], tail[1], tail[2], tail[3]);
      assert tail[..HEADER] == [tail[0], tail[1], tail[2], tail[3]];
      if |t| == 1 {
        assert tail[1] == h[0] && tail[2] == h[1] && tail[3] == h[2];
      } else if |t| == 2 {
        assert tail[2] == h[0] && tail[3] == h[1];
      } else {
        assert tail[4] == h[1] && tail[HEADER..HEADER + m][0] == tail[4];
      }
    }
  }

  /** A length below 2^16 has two zero bytes in front. */
  lemma SmallHeader(n: nat)
    requires n < 65536
    ensures var h := Bytes.BigEndian(n, HEADER);
            h[0] == '\0' && h[1] == '\0' && h[2] == (n / 256) as char && h[3] == (n % 256) as char
  {
    assert n / 256 < 256 && n / 256 / 256 == 0;
    assert Bytes.BigEndian(0, 1) == Bytes.BigEndian(0, 0) + ['\0'];
    assert Bytes.BigEndian(0, 2) == Bytes.BigEndian(0, 1) + ['\0'];
    assert Bytes.BigEndian(n / 256, 3) == Bytes.BigEndian(0, 2) + [(n / 256) as char];
    assert Bytes.BigEndian(n, HEADER) == Bytes.BigEndian(n / 256, 3) + [(n % 256) as char];
  }

  lemma FourBytes(a: char, b: char, c: char, d: char)
    ensures Bytes.FromBigEndian([a, b, c, d]) == ((a as nat * 256 + b as nat) * 256 + c as nat) * 256 + d as nat
  {
    assert [a, b, c, d][..3] == [a, b, c] && [a, b, c][..2] == [a, b] && [a, b][..1] == [a] && [a][..0] == [];
    assert Bytes.FromBigEndian([a]) == a as nat;
    assert Bytes.FromBigEndian([a, b]) == a as nat * 256 + b as nat;
    assert Bytes.FromBigEndian([a, b, c]) == (a as nat * 256 + b as nat) * 256 + c as nat;
  }
}
