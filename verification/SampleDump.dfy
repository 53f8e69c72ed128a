/**
 * The in-process sampler's dump: the writer embedded in the profiled workload and the parser of the report
 * script, over the bytes they exchange.
 */
module SampleDump {

  import opened Wrappers
  import opened Collections

  const WORD_LIMIT: nat := 0x1_0000_0000_0000_0000
  const MAGIC: nat := 0x3230504D41534D50
  const MAX_SAMPLES: nat := 25_000_000

  type Byte = b: nat | b < 256
  type Word = w: nat | w < WORD_LIMIT

  /** A string whose length fits a word. */
  type Text = t: seq<Byte> | |t| < WORD_LIMIT

  /** A raw sample; `op` and `node` are addresses of C strings, 0 when no marker was set. */
  datatype Sample = Sample(pc: Word, op: Word, node: Word, tag: Word)

  /** An entry of the string table: the string found at an address. */
  datatype Entry = Entry(p: Word, text: Text)

  datatype Resolved = Resolved(offset: int, op: Option<string>, node: Option<string>, tag: Word)

  datatype Dump = Dump(total: nat, base: Word, counts: map<int, nat>, samples: seq<Resolved>)

  datatype Error = TruncatedHeader | BadMagic | TruncatedSamples | TruncatedStringHeader | TruncatedString

  datatype Result<T> = Ok(value: T) | Err(error: Error)

  // ---------------------------------------------------------------- words

  function Power(n: nat): nat { if n == 0 then 1 else 256 * Power(n - 1) }

  /** The number that bytes denote, least significant byte first. */
  function Unpack(b: seq<Byte>): nat {
    if b == [] then 0 else b[0] + 256 * Unpack(b[1..])
  }

  lemma {:induction false} UnpackBound(b: seq<Byte>)
    ensures Unpack(b) < Power(|b|)
  {
    if b != [] {
      UnpackBound(b[1..]);
    }
  }

  lemma {:induction false} UnpackIsInjective(a: seq<Byte>, b: seq<Byte>)
    requires |a| == |b| && Unpack(a) == Unpack(b)
    ensures a == b
  {
    if a != [] {
      UnpackIsInjective(a[1..], b[1..]);
      assert a == [a[0]] + a[1..] && b == [b[0]] + b[1..];
    }
  }

  lemma {:induction false} BytesExist(v: nat, n: nat) returns (b: seq<Byte>)
    requires v < Power(n)
    ensures |b| == n && Unpack(b) == v
  {
    if n == 0 {
      b := [];
    } else {
      var rest := BytesExist(v / 256, n - 1);
      b := [v % 256] + rest;
      assert b[1..] == rest;
    }
  }

  lemma PowerOf8()
    ensures Power(8) == WORD_LIMIT
  {
    assert Power(4) == 0x1_0000_0000;
  }

  /** The eight bytes of a word: those that denote it. */
  ghost function Bytes(v: Word): (b: seq<Byte>)
    ensures |b| == 8
  {
    assert exists b: seq<Byte> :: |b| == 8 && Unpack(b) == v by {
      PowerOf8();
      var b := BytesExist(v, 8);
    }
    var b: seq<Byte> :| |b| == 8 && Unpack(b) == v;
    b
  }

  /** Bytes and words correspond one to one. */
  lemma BytesDenote(v: Word, b: seq<Byte>)
    requires |b| == 8
    ensures Unpack(b) < WORD_LIMIT
    ensures b == Bytes(v) <==> Unpack(b) == v
  {
    PowerOf8();
    UnpackBound(b);
    if Unpack(b) == v {
      UnpackIsInjective(b, Bytes(v));
    }
  }

  /** The word whose bytes stand at `at`. */
  ghost function ReadWord(data: seq<Byte>, at: nat): (v: Word)
    requires at + 8 <= |data|
  {
    assert exists v: Word :: Bytes(v) == data[at..at + 8] by {
      BytesDenote(0, data[at..at + 8]);
      BytesDenote(Unpack(data[at..at + 8]), data[at..at + 8]);
    }
    var v: Word :| Bytes(v) == data[at..at + 8];
    v
  }

  method UnpackWord(data: seq<Byte>, at: nat) returns (v: Word)
    requires at + 8 <= |data|
    ensures v == ReadWord(data, at)
  {
    var b := data[at..at + 8];
    BytesDenote(0, b);
    v := Unpack(b);
    BytesDenote(v, b);
    ReadAt(data, at, v);
  }

  /** A word that stands at `at` is read as itself. */
  lemma ReadAt(data: seq<Byte>, at: nat, v: Word)
    requires at + 8 <= |data| && data[at..at + 8] == Bytes(v)
    ensures ReadWord(data, at) == v
  {
    BytesDenote(v, data[at..at + 8]);
    BytesDenote(ReadWord(data, at), data[at..at + 8]);
  }

  // ---------------------------------------------------------------- the bytes written

  ghost function Header(base: Word, samples: Word, strings: Word): (b: seq<Byte>)
    ensures |b| == 32
  {
    Bytes(MAGIC) + Bytes(base) + Bytes(samples) + Bytes(strings)
  }

  ghost function SampleBytes(s: Sample): (b: seq<Byte>)
    ensures |b| == 32
  {
    Bytes(s.pc) + Bytes(s.op) + Bytes(s.node) + Bytes(s.tag)
  }

  ghost function AllSampleBytes(samples: seq<Sample>): (b: seq<Byte>)
    ensures |b| == 32 * |samples|
  {
    if samples == [] then []
    else AllSampleBytes(samples[..|samples| - 1]) + SampleBytes(samples[|samples| - 1])
  }

  /** The number of bytes that take `length` bytes to the next multiple of 8. */
  function Pad(length: nat): nat {
    if length == 0 then 0 else if length < 8 then 8 - length else Pad(length - 8)
  }

  /** Eight more bytes do not change the rest modulo 8. */
  lemma EightMore(n: int)
    ensures (n + 8) % 8 == n % 8
  {
  }

  lemma {:induction false} PadIs(length: nat)
    ensures Pad(length) == (8 - length % 8) % 8
  {
    if length >= 8 {
      PadIs(length - 8);
      EightMore(length - 8);
    }
  }

  lemma {:induction false} PadAligns(length: nat)
    ensures (length + Pad(length)) % 8 == 0
  {
    if length >= 8 {
      PadAligns(length - 8);
      EightMore(length - 8 + Pad(length - 8));
    }
  }

  function Zeros(n: nat): (b: seq<Byte>)
    ensures |b| == n
  {
    seq(n, i => 0)
  }

  ghost function EntryBytes(e: Entry): (b: seq<Byte>)
    ensures |b| == 16 + |e.text| + Pad(|e.text|)
  {
    Bytes(e.p) + Bytes(|e.text|) + e.text + Zeros(Pad(|e.text|))
  }

  ghost function TableBytes(entries: seq<Entry>): (b: seq<Byte>) {
    if entries == [] then []
    else TableBytes(entries[..|entries| - 1]) + EntryBytes(entries[|entries| - 1])
  }

  ghost function Written(base: Word, samples: seq<Sample>, entries: seq<Entry>): (b: seq<Byte>)
    requires |samples| < WORD_LIMIT && |entries| < WORD_LIMIT
  {
    Header(base, |samples|, |entries|) + AllSampleBytes(samples) + TableBytes(entries)
  }

  /** The addresses of the strings that the samples name. */
  function Pointers(samples: seq<Sample>): set<Word> {
    if samples == [] then {}
    else
      var last := samples[|samples| - 1];
      Pointers(samples[..|samples| - 1]) + {last.op, last.node} - {0}
  }

  lemma {:induction false} PointersAre(samples: seq<Sample>, p: Word)
    ensures p in Pointers(samples) <==>
      p != 0 && exists i :: 0 <= i < |samples| && (samples[i].op == p || samples[i].node == p)
  {
    if samples != [] {
      var k := |samples| - 1;
      PointersAre(samples[..k], p);
      if i :| 0 <= i < |samples| && (samples[i].op == p || samples[i].node == p) {
        assert i < k ==> samples[..k][i] == samples[i];
      }
    }
  }

  lemma {:induction false} FewPointers(samples: seq<Sample>)
    ensures |Pointers(samples)| <= 2 * |samples|
  {
    if samples != [] {
      var k := |samples| - 1;
      FewPointers(samples[..k]);
      var fewer := Pointers(samples[..k]);
      var two := {samples[k].op, samples[k].node};
      assert |fewer + two| <= |fewer| + |two|;
      SubsetCardinality(Pointers(samples), fewer + two);
    }
  }

  /** `entries` is one way to walk through a hash map. */
  ghost predicate Enumerates(entries: seq<Entry>, strings: map<Word, Text>) {
    (forall i :: 0 <= i < |entries| ==> entries[i].p in strings && strings[entries[i].p] == entries[i].text) &&
    (forall p :: p in strings ==> exists i :: 0 <= i < |entries| && entries[i].p == p) &&
    (forall i, j :: 0 <= i < j < |entries| ==> entries[i].p != entries[j].p)
  }

  lemma OneMore(strings: map<Word, Text>, p: Word)
    requires p in strings
    ensures |strings| == |strings - {p}| + 1
  {
    var rest := strings - {p};
    assert strings.Keys == rest.Keys + {p};
    assert |strings| == |strings.Keys| && |rest| == |rest.Keys|;
  }

  lemma {:induction false} EnumerationSize(entries: seq<Entry>, strings: map<Word, Text>)
    requires Enumerates(entries, strings)
    ensures |entries| == |strings|
  {
    if entries == [] {
      assert strings == map[];
    } else {
      var k := |entries| - 1;
      var rest := strings - {entries[k].p};
      forall p | p in rest ensures exists i :: 0 <= i < |entries[..k]| && entries[..k][i].p == p {
        var i :| 0 <= i < |entries| && entries[i].p == p;
        assert entries[..k][i].p == p;
      }
      EnumerationSize(entries[..k], rest);
      OneMore(strings, entries[k].p);
    }
  }

  lemma EnumeratesNext(entries: seq<Entry>, strings: map<Word, Text>, e: Entry)
    requires Enumerates(entries, strings) && e.p !in strings
    ensures Enumerates(entries + [e], strings[e.p := e.text])
  {
    var all, more := entries + [e], strings[e.p := e.text];
    forall p | p in more ensures exists i :: 0 <= i < |all| && all[i].p == p {
      if p == e.p {
        assert all[|entries|].p == p;
      } else {
        var i :| 0 <= i < |entries| && entries[i].p == p;
        assert all[i].p == p;
      }
    }
  }

  /** Every hash map can be walked through. */
  lemma {:induction false} EnumerationExists(strings: map<Word, Text>) returns (entries: seq<Entry>)
    ensures Enumerates(entries, strings)
    decreases |strings|
  {
    entries := [];
    if strings != map[] {
      var p :| p in strings;
      OneMore(strings, p);
      entries := EnumerationExists(strings - {p});
      EnumeratesNext(entries, strings - {p}, Entry(p, strings[p]));
      entries := entries + [Entry(p, strings[p])];
      assert (strings - {p})[p := strings[p]] == strings;
    }
  }

  /** What the process's memory holds at each address that the samples name. */
  ghost predicate Collected(strings: map<Word, Text>, samples: seq<Sample>, memory: Word -> Text) {
    strings.Keys == Pointers(samples) && forall p :: p in strings ==> strings[p] == memory(p)
  }

  // ---------------------------------------------------------------- the writer

  method CollectStrings(buffer: array<Sample>, n: nat, memory: Word -> Text) returns (strings: map<Word, Text>)
    requires n <= buffer.Length
    ensures Collected(strings, buffer[..n], memory)
  {
    strings := map[];
    for i := 0 to n
      invariant Collected(strings, buffer[..i], memory)
    {
      assert buffer[..i + 1][..i] == buffer[..i];
      var op, node := buffer[i].op, buffer[i].node;
      if op != 0 && op !in strings { strings := strings[op := memory(op)]; }
      if node != 0 && node !in strings { strings := strings[node := memory(node)]; }
    }
  }

  /** The eight bytes, each by its own shift. */
  method WriteWord(v: Word, file: seq<Byte>) returns (longer: seq<Byte>)
    ensures longer == file + Bytes(v)
  {
    var b := [v % 0x100, v / 0x100 % 0x100, v / 0x1_0000 % 0x100, v / 0x100_0000 % 0x100,
              v / 0x1_0000_0000 % 0x100, v / 0x100_0000_0000 % 0x100,
              v / 0x1_0000_0000_0000 % 0x100, v / 0x100_0000_0000_0000 % 0x100];
    BytesByShift(v, b);
    longer := file + b;
  }

  lemma BytesByShift(v: Word, b: seq<Byte>)
    requires b == [v % 0x100, v / 0x100 % 0x100, v / 0x1_0000 % 0x100, v / 0x100_0000 % 0x100,
                   v / 0x1_0000_0000 % 0x100, v / 0x100_0000_0000 % 0x100,
                   v / 0x1_0000_0000_0000 % 0x100, v / 0x100_0000_0000_0000 % 0x100]
    ensures b == Bytes(v)
  {
    var v1, v2, v3 := v / 0x100, v / 0x1_0000, v / 0x100_0000;
    var v4, v5, v6 := v / 0x1_0000_0000, v / 0x100_0000_0000, v / 0x1_0000_0000_0000;
    var v7 := v / 0x100_0000_0000_0000;
    UnpackStep(b[8..], 0, 0);
    UnpackStep(b[7..], v7, 0);
    UnpackStep(b[6..], v6, v7);
    UnpackStep(b[5..], v5, v6);
    UnpackStep(b[4..], v4, v5);
    UnpackStep(b[3..], v3, v4);
    UnpackStep(b[2..], v2, v3);
    UnpackStep(b[1..], v1, v2);
    UnpackStep(b, v, v1);
    BytesDenote(v, b);
  }

  lemma UnpackStep(b: seq<Byte>, v: nat, rest: nat)
    requires if b == [] then v == 0 else b[0] == v % 256 && rest == v / 256 && Unpack(b[1..]) == rest
    ensures Unpack(b) == v
  {
  }

  method WriteSample(s: Sample, file: seq<Byte>) returns (longer: seq<Byte>)
    ensures longer == file + SampleBytes(s)
  {
    longer := WriteWord(s.pc, file);
    longer := WriteWord(s.op, longer);
    longer := WriteWord(s.node, longer);
    longer := WriteWord(s.tag, longer);
  }

  method WriteEntry(e: Entry, file: seq<Byte>) returns (longer: seq<Byte>)
    ensures longer == file + EntryBytes(e)
  {
    longer := WriteWord(e.p, file);
    longer := WriteWord(|e.text|, longer);
    if |e.text| > 0 { longer := longer + e.text; }
    var pad := (8 - |e.text| % 8) % 8;
    PadIs(|e.text|);
    if pad > 0 { longer := longer + Zeros(pad); }
  }

  /** The samples that the buffer holds when the signal handler tried to record `count` of them. */
  ghost function Recorded(buffer: array<Sample>, count: nat): seq<Sample>
    requires buffer.Length == MAX_SAMPLES
    reads buffer
  {
    buffer[..if count > MAX_SAMPLES then MAX_SAMPLES else count]
  }

  /** Writes the dump; `entries` is the order in which the hash map of strings yields its contents. */
  method Finalize(buffer: array<Sample>, count: nat, base: Word, memory: Word -> Text, entries: seq<Entry>)
    returns (file: seq<Byte>)
    requires buffer.Length == MAX_SAMPLES
    requires exists strings :: Collected(strings, Recorded(buffer, count), memory) && Enumerates(entries, strings)
    ensures |entries| < WORD_LIMIT && file == Written(base, Recorded(buffer, count), entries)
  {
    var n := count;
    if n > MAX_SAMPLES { n := MAX_SAMPLES; }
    var strings := CollectStrings(buffer, n, memory);
    CollectedOnce(buffer[..n], memory, entries, strings);
    EnumerationSize(entries, strings);
    FewPointers(buffer[..n]);
    assert |strings| == |strings.Keys|;
    file := WriteHeader(base, n, |strings|);
    file := WriteSamples(buffer, n, file);
    file := WriteTable(entries, file);
  }

  /** The collected strings do not depend on how they were collected. */
  lemma CollectedOnce(samples: seq<Sample>, memory: Word -> Text, entries: seq<Entry>, strings: map<Word, Text>)
    requires exists other :: Collected(other, samples, memory) && Enumerates(entries, other)
    requires Collected(strings, samples, memory)
    ensures Enumerates(entries, strings)
  {
    var other :| Collected(other, samples, memory) && Enumerates(entries, other);
    assert other == strings;
  }

  method WriteHeader(base: Word, samples: Word, strings: Word) returns (file: seq<Byte>)
    ensures file == Header(base, samples, strings)
  {
    file := WriteWord(MAGIC, []);
    assert file == Bytes(MAGIC);
    file := WriteWord(base, file);
    file := WriteWord(samples, file);
    file := WriteWord(strings, file);
  }

  method WriteSamples(buffer: array<Sample>, n: nat, file: seq<Byte>) returns (longer: seq<Byte>)
    requires n <= buffer.Length
    ensures longer == file + AllSampleBytes(buffer[..n])
  {
    longer := file;
    for i := 0 to n
      invariant longer == file + AllSampleBytes(buffer[..i])
    {
      assert buffer[..i + 1][..i] == buffer[..i];
      longer := WriteSample(buffer[i], longer);
    }
  }

  method WriteTable(entries: seq<Entry>, file: seq<Byte>) returns (longer: seq<Byte>)
    ensures longer == file + TableBytes(entries)
  {
    longer := file;
    for i := 0 to |entries|
      invariant longer == file + TableBytes(entries[..i])
    {
      assert entries[..i + 1][..i] == entries[..i];
      longer := WriteEntry(entries[i], longer);
    }
    assert entries[..|entries|] == entries;
  }

  // ---------------------------------------------------------------- the bytes read

  ghost function ReadSample(data: seq<Byte>, at: nat): Sample
    requires at + 32 <= |data|
  {
    Sample(ReadWord(data, at), ReadWord(data, at + 8), ReadWord(data, at + 16), ReadWord(data, at + 24))
  }

  /** The string table that `n` entries at `at` denote; a later entry for an address replaces an earlier one. */
  ghost function ReadTable(data: seq<Byte>, at: nat, n: nat, decode: seq<Byte> -> string, table: map<Word, string>)
    : Result<map<Word, string>>
    decreases n
  {
    if n == 0 then Ok(table)
    else if |data| < at + 16 then Err(TruncatedStringHeader)
    else
      var p, length := ReadWord(data, at), ReadWord(data, at + 8);
      if |data| < at + 16 + length then Err(TruncatedString)
      else
        var text := decode(data[at + 16..at + 16 + length]);
        ReadTable(data, at + 16 + length + Pad(length), n - 1, decode, table[p := text])
  }

  lemma ReadEntry(data: seq<Byte>, at: nat, n: nat, decode: seq<Byte> -> string, table: map<Word, string>, e: Entry)
    requires n > 0 && EntryAt(data, at, e)
    ensures ReadTable(data, at, n, decode, table)
         == ReadTable(data, at + 16 + |e.text| + Pad(|e.text|), n - 1, decode, table[e.p := decode(e.text)])
  {
  }

  function NameOf(p: Word, table: map<Word, string>): Option<string> {
    if p != 0 && p in table then Some(table[p]) else None
  }

  function Resolve(s: Sample, base: Word, table: map<Word, string>): Resolved {
    Resolved(s.pc - base, NameOf(s.op, table), NameOf(s.node, table), s.tag)
  }

  /** The histogram of a list of offsets: one entry for each offset that occurs, with its multiplicity. */
  ghost predicate IsHistogram(counts: map<int, nat>, samples: seq<Resolved>) {
    forall o ::
      (o in counts <==> o in multiset(Offsets(samples))) &&
      (o in counts ==> counts[o] == multiset(Offsets(samples))[o])
  }

  function Offsets(samples: seq<Resolved>): (r: seq<int>)
    ensures |r| == |samples| && forall i :: 0 <= i < |r| ==> r[i] == samples[i].offset
  {
    seq(|samples|, i requires 0 <= i < |samples| => samples[i].offset)
  }

  /** The error of a dump, or the string table. */
  ghost function Check(data: seq<Byte>, decode: seq<Byte> -> string): Result<map<Word, string>> {
    if |data| < 32 then Err(TruncatedHeader)
    else if ReadWord(data, 0) != MAGIC then Err(BadMagic)
    else
      var n := ReadWord(data, 16);
      if |data| < 32 + 32 * n then Err(TruncatedSamples)
      else ReadTable(data, 32 + 32 * n, ReadWord(data, 24), decode, map[])
  }

  /** What a successful parse returns. */
  ghost predicate Describes(d: Dump, data: seq<Byte>, table: map<Word, string>) {
    |data| >= 32 && d.base == ReadWord(data, 8) && d.total == ReadWord(data, 16) == |d.samples| &&
    |data| >= 32 + 32 * d.total &&
    (forall i :: 0 <= i < d.total ==> d.samples[i] == Resolve(ReadSample(data, 32 + 32 * i), d.base, table)) &&
    IsHistogram(d.counts, d.samples)
  }

  // ---------------------------------------------------------------- the parser

  method ParseInprocDump(data: seq<Byte>, decode: seq<Byte> -> string) returns (r: Result<Dump>)
    ensures r.Err? <==> Check(data, decode).Err?
    ensures r.Err? ==> r.error == Check(data, decode).error
    ensures r.Ok? ==> Describes(r.value, data, Check(data, decode).value)
  {
    if |data| < 32 { return Err(TruncatedHeader); }
    var magic := UnpackWord(data, 0);
    var base := UnpackWord(data, 8);
    var samples := UnpackWord(data, 16);
    var strings := UnpackWord(data, 24);
    if magic != MAGIC { return Err(BadMagic); }
    var pos: nat := 32;
    if |data| < pos + 32 * samples as nat { return Err(TruncatedSamples); }
    var raw := UnpackSamples(data, pos, samples);
    var table := ParseTable(data, pos + 32 * samples as nat, strings, decode);
    if table.Err? { return Err(table.error); }
    var resolved, counts := ResolveSamples(raw, base, table.value);
    r := Ok(Dump(samples, base, counts, resolved));
    ParsedDescribes(r.value, data, raw, table.value);
  }

  lemma ParsedDescribes(d: Dump, data: seq<Byte>, raw: seq<Sample>, table: map<Word, string>)
    requires |data| >= 32 + 32 * d.total && d.base == ReadWord(data, 8) && d.total == ReadWord(data, 16)
    requires |d.samples| == d.total == |raw| && IsHistogram(d.counts, d.samples)
    requires forall i :: 0 <= i < d.total ==> raw[i] == ReadSample(data, 32 + 32 * i)
    requires forall i :: 0 <= i < d.total ==> d.samples[i] == Resolve(raw[i], d.base, table)
    ensures Describes(d, data, table)
  {
  }

  method UnpackSamples(data: seq<Byte>, pos: nat, n: nat) returns (raw: seq<Sample>)
    requires pos + 32 * n <= |data|
    ensures |raw| == n && forall i :: 0 <= i < n ==> raw[i] == ReadSample(data, pos + 32 * i)
  {
    raw := [];
    for i := 0 to n
      invariant |raw| == i && forall k :: 0 <= k < i ==> raw[k] == ReadSample(data, pos + 32 * k)
    {
      var pc := UnpackWord(data, pos + 32 * i);
      var op := UnpackWord(data, pos + 32 * i + 8);
      var node := UnpackWord(data, pos + 32 * i + 16);
      var tag := UnpackWord(data, pos + 32 * i + 24);
      raw := raw + [Sample(pc, op, node, tag)];
    }
  }

  method ParseTable(data: seq<Byte>, start: nat, n: nat, decode: seq<Byte> -> string)
    returns (r: Result<map<Word, string>>)
    ensures r == ReadTable(data, start, n, decode, map[])
  {
    var table: map<Word, string> := map[];
    var pos: nat := start;
    for i := 0 to n
      invariant ReadTable(data, start, n, decode, map[]) == ReadTable(data, pos, n - i, decode, table)
    {
      if |data| < pos + 16 { return Err(TruncatedStringHeader); }
      var p := UnpackWord(data, pos);
      var length := UnpackWord(data, pos + 8);
      pos := pos + 16;
      if |data| < pos + length { return Err(TruncatedString); }
      table := table[p := decode(data[pos..pos + length])];
      PadIs(length);
      pos := pos + length + (8 - length % 8) % 8;
    }
    r := Ok(table);
  }

  method ResolveSamples(raw: seq<Sample>, base: Word, table: map<Word, string>)
    returns (samples: seq<Resolved>, counts: map<int, nat>)
    ensures |samples| == |raw|
    ensures forall i :: 0 <= i < |raw| ==> samples[i] == Resolve(raw[i], base, table)
    ensures IsHistogram(counts, samples)
  {
    samples, counts := [], map[];
    for i := 0 to |raw|
      invariant |samples| == i && forall k :: 0 <= k < i ==> samples[k] == Resolve(raw[k], base, table)
      invariant IsHistogram(counts, samples)
    {
      var s := Resolve(raw[i], base, table);
      counts := CountSample(counts, s, samples);
      samples := samples + [s];
    }
  }

  method CountSample(counts: map<int, nat>, s: Resolved, ghost samples: seq<Resolved>) returns (more: map<int, nat>)
    requires IsHistogram(counts, samples)
    ensures IsHistogram(more, samples + [s])
  {
    assert Offsets(samples + [s]) == Offsets(samples) + [s.offset];
    more := counts[s.offset := (if s.offset in counts then counts[s.offset] else 0) + 1];
  }

  // ---------------------------------------------------------------- round trip

  lemma {:induction false} SamplesReadBack(pre: seq<Byte>, samples: seq<Sample>, post: seq<Byte>, i: nat)
    requires i < |samples|
    ensures ReadSample(pre + AllSampleBytes(samples) + post, |pre| + 32 * i) == samples[i]
  {
    var k := |samples| - 1;
    var front, last := AllSampleBytes(samples[..k]), SampleBytes(samples[k]);
    if i < k {
      SamplesReadBack(pre, samples[..k], last + post, i);
      assert pre + AllSampleBytes(samples) + post == pre + front + (last + post);
    } else {
      SampleReadBack(pre + front, samples[k], post);
      assert pre + AllSampleBytes(samples) + post == pre + front + last + post;
    }
  }

  lemma SampleReadBack(pre: seq<Byte>, s: Sample, post: seq<Byte>)
    ensures ReadSample(pre + SampleBytes(s) + post, |pre|) == s
  {
    var data, at := pre + SampleBytes(s) + post, |pre|;
    assert data[at..at + 32] == SampleBytes(s);
    FourWords(data, at, s.pc, s.op, s.node, s.tag);
  }

  lemma Slice(data: seq<Byte>, at: nat, length: nat, lo: nat, hi: nat)
    requires at + length <= |data| && lo <= hi <= length
    ensures data[at..at + length][lo..hi] == data[at + lo..at + hi]
  {
    var a, b := data[at..at + length][lo..hi], data[at + lo..at + hi];
    assert |a| == |b|;
    assert forall i :: 0 <= i < |a| ==> a[i] == b[i];
  }

  lemma FourWords(data: seq<Byte>, at: nat, a: Word, b: Word, c: Word, d: Word)
    requires at + 32 <= |data|
    requires data[at..at + 32] == Bytes(a) + Bytes(b) + Bytes(c) + Bytes(d)
    ensures ReadWord(data, at) == a && ReadWord(data, at + 8) == b
    ensures ReadWord(data, at + 16) == c && ReadWord(data, at + 24) == d
  {
    var s := data[at..at + 32];
    assert s[0..8] == Bytes(a) && s[8..16] == Bytes(b) && s[16..24] == Bytes(c) && s[24..32] == Bytes(d);
    Slice(data, at, 32, 0, 8);
    Slice(data, at, 32, 8, 16);
    Slice(data, at, 32, 16, 24);
    Slice(data, at, 32, 24, 32);
    ReadAt(data, at, a);
    ReadAt(data, at + 8, b);
    ReadAt(data, at + 16, c);
    ReadAt(data, at + 24, d);
  }

  ghost predicate StandsAt(data: seq<Byte>, at: nat, part: seq<Byte>) {
    at + |part| <= |data| && data[at..at + |part|] == part
  }

  lemma StandsInside(data: seq<Byte>, start: nat, table: seq<Byte>, at: nat, part: seq<Byte>)
    requires StandsAt(data, start, table) && StandsAt(table, at, part)
    ensures StandsAt(data, start + at, part)
  {
    Slice(data, start, |table|, at, at + |part|);
  }

  lemma StandsBefore(data: seq<Byte>, at: nat, part: seq<Byte>, post: seq<Byte>)
    requires StandsAt(data, at, part)
    ensures StandsAt(data + post, at, part)
  {
    assert (data + post)[at..at + |part|] == data[at..at + |part|];
  }

  /** Reading an entry at `at` yields this one. */
  ghost predicate EntryAt(data: seq<Byte>, at: nat, e: Entry) {
    at + 16 + |e.text| <= |data| && ReadWord(data, at) == e.p && ReadWord(data, at + 8) == |e.text| &&
    data[at + 16..at + 16 + |e.text|] == e.text
  }

  /** One written entry, wherever it stands, is read as its address and its text. */
  lemma EntryReadsBack(data: seq<Byte>, at: nat, e: Entry)
    requires StandsAt(data, at, EntryBytes(e))
    ensures EntryAt(data, at, e)
  {
    var entry, n := EntryBytes(e), |e.text|;
    assert entry[0..8] == Bytes(e.p) && entry[8..16] == Bytes(n) && entry[16..16 + n] == e.text;
    Slice(data, at, |entry|, 0, 8);
    Slice(data, at, |entry|, 8, 16);
    Slice(data, at, |entry|, 16, 16 + n);
    ReadAt(data, at, e.p);
    ReadAt(data, at + 8, n);
  }

  /** The texts of the entries, added to `table` in order. */
  function AddTexts(entries: seq<Entry>, decode: seq<Byte> -> string, table: map<Word, string>): map<Word, string> {
    if entries == [] then table
    else AddTexts(entries[1..], decode, table[entries[0].p := decode(entries[0].text)])
  }

  lemma {:induction false} AddedTexts(entries: seq<Entry>, decode: seq<Byte> -> string, table: map<Word, string>,
                                      strings: map<Word, Text>, p: Word)
    requires forall i :: 0 <= i < |entries| ==> entries[i].p in strings && strings[entries[i].p] == entries[i].text
    ensures var all := AddTexts(entries, decode, table);
      if exists i :: 0 <= i < |entries| && entries[i].p == p then p in strings && p in all &&
        all[p] == decode(strings[p])
      else (p in all <==> p in table) && (p in all ==> all[p] == table[p])
  {
    if entries != [] {
      var next := table[entries[0].p := decode(entries[0].text)];
      AddedTexts(entries[1..], decode, next, strings, p);
      if i :| 0 <= i < |entries| && entries[i].p == p {
        assert i > 0 ==> entries[1..][i - 1].p == p;
      }
    }
  }

  /** Where entry `k` of a table starts. */
  function Position(entries: seq<Entry>, k: nat): nat
    requires k <= |entries|
  {
    if k == 0 then 0
    else Position(entries, k - 1) + 16 + |entries[k - 1].text| + Pad(|entries[k - 1].text|)
  }

  lemma {:induction false} PositionIsLength(entries: seq<Entry>, k: nat)
    requires k <= |entries|
    ensures Position(entries, k) == |TableBytes(entries[..k])|
  {
    if k > 0 {
      PositionIsLength(entries, k - 1);
      assert entries[..k][..k - 1] == entries[..k - 1];
    }
  }

  lemma {:induction false} EntryStands(entries: seq<Entry>, k: nat)
    requires k < |entries|
    ensures StandsAt(TableBytes(entries), |TableBytes(entries[..k])|, EntryBytes(entries[k]))
  {
    var n := |entries| - 1;
    var front, last := TableBytes(entries[..n]), EntryBytes(entries[n]);
    if k < n {
      EntryStands(entries[..n], k);
      assert entries[..n][..k] == entries[..k];
      StandsBefore(front, |TableBytes(entries[..k])|, EntryBytes(entries[k]), last);
    }
  }

  /** Each entry of a table that stands in the data is read as its address and text. */
  lemma TableHolds(data: seq<Byte>, start: nat, entries: seq<Entry>, k: nat)
    requires StandsAt(data, start, TableBytes(entries)) && k < |entries|
    ensures EntryAt(data, start + Position(entries, k), entries[k])
  {
    PositionIsLength(entries, k);
    EntryStandsIn(data, start, entries, k, Position(entries, k));
    EntryReadsBack(data, start + Position(entries, k), entries[k]);
  }

  lemma EntryStandsIn(data: seq<Byte>, start: nat, entries: seq<Entry>, k: nat, at: nat)
    requires StandsAt(data, start, TableBytes(entries)) && k < |entries| && at == |TableBytes(entries[..k])|
    ensures StandsAt(data, start + at, EntryBytes(entries[k]))
  {
    EntryStands(entries, k);
    StandsInside(data, start, TableBytes(entries), at, EntryBytes(entries[k]));
  }

  lemma ReadEntryOf(data: seq<Byte>, start: nat, entries: seq<Entry>, k: nat, n: nat,
                    decode: seq<Byte> -> string, table: map<Word, string>)
    requires StandsAt(data, start, TableBytes(entries)) && k < |entries| && n > 0
    ensures ReadTable(data, start + Position(entries, k), n, decode, table)
         == ReadTable(data, start + Position(entries, k + 1), n - 1, decode,
                      table[entries[k].p := decode(entries[k].text)])
  {
    TableHolds(data, start, entries, k);
    ReadEntry(data, start + Position(entries, k), n, decode, table, entries[k]);
  }

  lemma {:induction false} TableReadsBack(data: seq<Byte>, start: nat, entries: seq<Entry>, k: nat,
                                          decode: seq<Byte> -> string, table: map<Word, string>)
    requires StandsAt(data, start, TableBytes(entries)) && k <= |entries|
    ensures ReadTable(data, start + Position(entries, k), |entries| - k, decode, table)
         == Ok(AddTexts(entries[k..], decode, table))
    decreases |entries| - k
  {
    if k < |entries| {
      var e := entries[k];
      ReadEntryOf(data, start, entries, k, |entries| - k, decode, table);
      TableReadsBack(data, start, entries, k + 1, decode, table[e.p := decode(e.text)]);
      assert entries[k..][1..] == entries[k + 1..];
    }
  }

  lemma HeaderReadsBack(base: Word, n: Word, strings: Word, post: seq<Byte>)
    ensures var data := Header(base, n, strings) + post;
      ReadWord(data, 0) == MAGIC && ReadWord(data, 8) == base &&
      ReadWord(data, 16) == n && ReadWord(data, 24) == strings
  {
    var data := Header(base, n, strings) + post;
    assert data[0..32] == Header(base, n, strings);
    FourWords(data, 0, MAGIC, base, n, strings);
  }

  /** The name the sampled process meant by an address. */
  ghost function Denoted(p: Word, memory: Word -> Text, decode: seq<Byte> -> string): Option<string> {
    if p == 0 then None else Some(decode(memory(p)))
  }

  ghost predicate Faithful(d: Dump, base: Word, samples: seq<Sample>, memory: Word -> Text,
                           decode: seq<Byte> -> string)
  {
    d.total == |samples| == |d.samples| && d.base == base &&
    (forall i :: 0 <= i < |samples| ==>
      d.samples[i] == Resolved(samples[i].pc - base, Denoted(samples[i].op, memory, decode),
                               Denoted(samples[i].node, memory, decode), samples[i].tag)) &&
    IsHistogram(d.counts, d.samples)
  }

  /**
   * Whatever order the hash map yields its strings in, a written dump parses, and every description of it holds
   * each sample in order, with the names its addresses denoted.
   */
  lemma RoundTrip(base: Word, samples: seq<Sample>, memory: Word -> Text, strings: map<Word, Text>,
                  entries: seq<Entry>, decode: seq<Byte> -> string, d: Dump)
    requires |samples| < WORD_LIMIT && |entries| < WORD_LIMIT
    requires Collected(strings, samples, memory) && Enumerates(entries, strings)
    ensures var data := Written(base, samples, entries);
      Check(data, decode).Ok? &&
      (Describes(d, data, Check(data, decode).value) ==> Faithful(d, base, samples, memory, decode))
  {
    var data := Written(base, samples, entries);
    WrittenIsAccepted(base, samples, entries, decode);
    var table := AddTexts(entries, decode, map[]);
    forall i | 0 <= i < |samples|
      ensures Resolve(ReadSample(data, 32 + 32 * i), base, table)
           == Resolved(samples[i].pc - base, Denoted(samples[i].op, memory, decode),
                       Denoted(samples[i].node, memory, decode), samples[i].tag)
    {
      SampleOfWritten(base, samples, entries, i);
      NamesAreFound(samples, memory, strings, entries, decode, i);
    }
  }

  lemma EndStands(front: seq<Byte>, end: seq<Byte>)
    ensures StandsAt(front + end, |front|, end)
  {
  }

  lemma TableStands(base: Word, samples: seq<Sample>, entries: seq<Entry>)
    requires |samples| < WORD_LIMIT && |entries| < WORD_LIMIT
    ensures StandsAt(Written(base, samples, entries), 32 + 32 * |samples|, TableBytes(entries))
  {
    EndStands(Header(base, |samples|, |entries|) + AllSampleBytes(samples), TableBytes(entries));
  }

  lemma WrittenIsAccepted(base: Word, samples: seq<Sample>, entries: seq<Entry>, decode: seq<Byte> -> string)
    requires |samples| < WORD_LIMIT && |entries| < WORD_LIMIT
    ensures var data := Written(base, samples, entries);
      |data| >= 32 + 32 * |samples| && ReadWord(data, 8) == base && ReadWord(data, 16) == |samples| &&
      Check(data, decode) == Ok(AddTexts(entries, decode, map[]))
  {
    var header, body, strings := Header(base, |samples|, |entries|), AllSampleBytes(samples), TableBytes(entries);
    var data := Written(base, samples, entries);
    HeaderReadsBack(base, |samples|, |entries|, body + strings);
    assert data == header + (body + strings);
    TableStands(base, samples, entries);
    TableReadsBack(data, 32 + 32 * |samples|, entries, 0, decode, map[]);
    assert entries[0..] == entries;
  }

  lemma SampleOfWritten(base: Word, samples: seq<Sample>, entries: seq<Entry>, i: nat)
    requires |samples| < WORD_LIMIT && |entries| < WORD_LIMIT && i < |samples|
    ensures |Written(base, samples, entries)| >= 32 + 32 * |samples|
    ensures ReadSample(Written(base, samples, entries), 32 + 32 * i) == samples[i]
  {
    SamplesReadBack(Header(base, |samples|, |entries|), samples, TableBytes(entries), i);
  }

  lemma NameIsFound(samples: seq<Sample>, memory: Word -> Text, strings: map<Word, Text>, entries: seq<Entry>,
                    decode: seq<Byte> -> string, p: Word)
    requires Collected(strings, samples, memory) && Enumerates(entries, strings)
    requires p == 0 || p in Pointers(samples)
    ensures NameOf(p, AddTexts(entries, decode, map[])) == Denoted(p, memory, decode)
  {
    AddedTexts(entries, decode, map[], strings, p);
  }

  lemma NamesAreFound(samples: seq<Sample>, memory: Word -> Text, strings: map<Word, Text>, entries: seq<Entry>,
                      decode: seq<Byte> -> string, i: nat)
    requires Collected(strings, samples, memory) && Enumerates(entries, strings) && i < |samples|
    ensures var table := AddTexts(entries, decode, map[]);
      NameOf(samples[i].op, table) == Denoted(samples[i].op, memory, decode) &&
      NameOf(samples[i].node, table) == Denoted(samples[i].node, memory, decode)
  {
    PointersAre(samples, samples[i].op);
    PointersAre(samples, samples[i].node);
    NameIsFound(samples, memory, strings, entries, decode, samples[i].op);
    NameIsFound(samples, memory, strings, entries, decode, samples[i].node);
  }

  /** Samples have only one histogram. */
  lemma HistogramIsUnique(a: map<int, nat>, b: map<int, nat>, samples: seq<Resolved>)
    requires IsHistogram(a, samples) && IsHistogram(b, samples)
    ensures a == b
    ensures forall i :: 0 <= i < |samples| ==> samples[i].offset in a && a[samples[i].offset] > 0
  {
    forall o ensures (o in a <==> o in b) && (o in a ==> a[o] == b[o]) {
      var there := o in multiset(Offsets(samples));
    }
    forall i | 0 <= i < |samples| ensures samples[i].offset in a && a[samples[i].offset] > 0 {
      assert Offsets(samples)[i] in multiset(Offsets(samples));
    }
  }

  /** What was recorded says all of the dump: there is only one that describes it. */
  lemma FaithfulIsUnique(d: Dump, d': Dump, base: Word, samples: seq<Sample>, memory: Word -> Text,
                         decode: seq<Byte> -> string)
    requires Faithful(d, base, samples, memory, decode) && Faithful(d', base, samples, memory, decode)
    ensures d == d'
  {
    assert d.samples == d'.samples;
    HistogramIsUnique(d.counts, d'.counts, d.samples);
  }

  /** A dump begins with these eight characters: PMSAMP02. */
  lemma MagicSpells()
    ensures Bytes(MAGIC) == [0x50, 0x4D, 0x53, 0x41, 0x4D, 0x50, 0x30, 0x32]
  {
    var b: seq<Byte> := [0x50, 0x4D, 0x53, 0x41, 0x4D, 0x50, 0x30, 0x32];
    UnpackStep(b[8..], 0, 0);
    UnpackStep(b[7..], 0x32, 0);
    UnpackStep(b[6..], 0x3230, 0x32);
    UnpackStep(b[5..], 0x323050, 0x3230);
    UnpackStep(b[4..], 0x3230504D, 0x323050);
    UnpackStep(b[3..], 0x3230504D41, 0x3230504D);
    UnpackStep(b[2..], 0x3230504D4153, 0x3230504D41);
    UnpackStep(b[1..], 0x3230504D41534D, 0x3230504D4153);
    UnpackStep(b, MAGIC, 0x3230504D41534D);
    BytesDenote(MAGIC, b);
  }

  /**
   * Byte for byte: the characters, three words that say the load address and the numbers of samples and strings, then
   * 32 bytes for each sample.
   */
  lemma DumpLayout(base: Word, samples: seq<Sample>, entries: seq<Entry>, i: nat)
    requires |samples| < WORD_LIMIT && |entries| < WORD_LIMIT && i < |samples|
    ensures var data := Written(base, samples, entries);
      && |data| >= 32 + 32 * |samples| && data[0..8] == [0x50, 0x4D, 0x53, 0x41, 0x4D, 0x50, 0x30, 0x32]
      && ReadWord(data, 8) == base && ReadWord(data, 16) == |samples| && ReadWord(data, 24) == |entries|
      && var at := 32 + 32 * i;
      && ReadWord(data, at) == samples[i].pc && ReadWord(data, at + 8) == samples[i].op
      && ReadWord(data, at + 16) == samples[i].node && ReadWord(data, at + 24) == samples[i].tag
  {
    var data, body := Written(base, samples, entries), AllSampleBytes(samples) + TableBytes(entries);
    assert data == Header(base, |samples|, |entries|) + body;
    HeaderReadsBack(base, |samples|, |entries|, body);
    MagicSpells();
    assert data[0..8] == Bytes(MAGIC);
    SampleOfWritten(base, samples, entries, i);
  }

  /** The buffer has room for 25 million samples; what comes behind them is dropped. */
  lemma RecordedAre(buffer: array<Sample>, count: nat)
    requires buffer.Length == MAX_SAMPLES
    ensures Recorded(buffer, count) == if count <= 25_000_000 then buffer[..count] else buffer[..25_000_000]
  {
  }

  /** The parser returns what the sampler recorded. */
  method WriteThenParse(buffer: array<Sample>, count: nat, base: Word, memory: Word -> Text, entries: seq<Entry>,
                        decode: seq<Byte> -> string) returns (r: Result<Dump>)
    requires buffer.Length == MAX_SAMPLES
    requires exists strings :: Collected(strings, Recorded(buffer, count), memory) && Enumerates(entries, strings)
    ensures r.Ok? && Faithful(r.value, base, Recorded(buffer, count), memory, decode)
  {
    ghost var samples := Recorded(buffer, count);
    ghost var strings :| Collected(strings, samples, memory) && Enumerates(entries, strings);
    var file := Finalize(buffer, count, base, memory, entries);
    r := ParseInprocDump(file, decode);
    RoundTrip(base, samples, memory, strings, entries, decode, if r.Ok? then r.value else Dump(0, 0, map[], []));
  }

  lemma AddAligned(a: nat, b: nat)
    requires a % 8 == 0 && b % 8 == 0
    ensures (a + b) % 8 == 0
  {
  }

  lemma {:induction false} PositionIsAligned(entries: seq<Entry>, k: nat)
    requires k <= |entries|
    ensures Position(entries, k) % 8 == 0
  {
    if k > 0 {
      PositionIsAligned(entries, k - 1);
      var length := |entries[k - 1].text|;
      PadAligns(length);
      AddAligned(Position(entries, k - 1) + 16, length + Pad(length));
    }
  }

  /** Behind its text an entry has at most seven bytes, all zero, up to the next boundary. */
  lemma EntryIsPadded(e: Entry, i: nat)
    ensures |EntryBytes(e)| % 8 == 0 && |EntryBytes(e)| < 16 + |e.text| + 8
    ensures 16 + |e.text| <= i < |EntryBytes(e)| ==> EntryBytes(e)[i] == 0
  {
    PadIs(|e.text|);
    PadAligns(|e.text|);
    AddAligned(16, |e.text| + Pad(|e.text|));
  }

  lemma DumpIsAligned(base: Word, samples: seq<Sample>, entries: seq<Entry>)
    requires |samples| < WORD_LIMIT && |entries| < WORD_LIMIT
    ensures |Written(base, samples, entries)| % 8 == 0
  {
    PositionIsAligned(entries, |entries|);
    PositionIsLength(entries, |entries|);
    assert entries[..|entries|] == entries;
  }

  lemma BodyIsAligned(samples: seq<Sample>, at: nat)
    requires at % 8 == 0
    ensures (32 + 32 * |samples| + at) % 8 == 0
  {
  }

  /** Every string entry starts on an 8-byte boundary. */
  lemma EntryIsAligned(samples: seq<Sample>, entries: seq<Entry>, k: nat)
    requires k <= |entries|
    ensures (32 + 32 * |samples| + Position(entries, k)) % 8 == 0
  {
    PositionIsAligned(entries, k);
    BodyIsAligned(samples, Position(entries, k));
  }

  // ---------------------------------------------------------------- truncated dumps

  /** Where the last of `n` texts ends; its padding is never looked at. */
  ghost function TableEnd(data: seq<Byte>, at: nat, n: nat): (end: nat)
    ensures at <= end
    ensures n > 0 && at + 16 <= |data| ==> at + 16 + ReadWord(data, at + 8) <= end
    decreases n
  {
    if n == 0 || |data| < at + 16 then at
    else
      var length: nat := ReadWord(data, at + 8);
      if n == 1 then at + 16 + length else TableEnd(data, at + 16 + length + Pad(length), n - 1)
  }

  lemma {:induction false} CutBehindTable(data: seq<Byte>, at: nat, n: nat, decode: seq<Byte> -> string,
                                          table: map<Word, string>, cut: nat)
    requires ReadTable(data, at, n, decode, table).Ok? && TableEnd(data, at, n) <= cut <= |data|
    ensures ReadTable(data[..cut], at, n, decode, table) == ReadTable(data, at, n, decode, table)
    decreases n
  {
    if n > 0 {
      var e := FirstEntry(data, at, n, decode, table);
      var next, more := CutStep(data, at, n, decode, table, cut, e);
      if n > 1 {
        CutBehindTable(data, next, n - 1, decode, more, cut);
      }
    }
  }

  lemma {:induction false} CutInsideTable(data: seq<Byte>, at: nat, n: nat, decode: seq<Byte> -> string,
                                          table: map<Word, string>, cut: nat)
    requires ReadTable(data, at, n, decode, table).Ok? && cut <= |data| && n > 0
    requires cut < TableEnd(data, at, n)
    ensures ReadTable(data[..cut], at, n, decode, table).Err?
    decreases n
  {
    var e := FirstEntry(data, at, n, decode, table);
    if at + 16 + |e.text| <= cut {
      var next, more := CutStep(data, at, n, decode, table, cut, e);
      CutInsideTable(data, next, n - 1, decode, more, cut);
    } else {
      CutInsideEntry(data, at, n, decode, table, cut);
    }
  }

  lemma FirstEntry(data: seq<Byte>, at: nat, n: nat, decode: seq<Byte> -> string, table: map<Word, string>)
      returns (e: Entry)
    requires n > 0 && ReadTable(data, at, n, decode, table).Ok?
    ensures EntryAt(data, at, e) && at + 16 <= |data| && |e.text| == ReadWord(data, at + 8)
    ensures at + 16 + |e.text| <= |data| && at + 16 + |e.text| <= TableEnd(data, at, n)
  {
    ReadFits(data, at, n, decode, table);
    e := EntryOf(data, at);
  }

  lemma TableEndAfter(data: seq<Byte>, at: nat, n: nat, e: Entry)
    requires n > 0 && EntryAt(data, at, e)
    ensures TableEnd(data, at, n)
         == if n == 1 then at + 16 + |e.text| else TableEnd(data, at + 16 + |e.text| + Pad(|e.text|), n - 1)
  {
  }

  lemma CutStep(data: seq<Byte>, at: nat, n: nat, decode: seq<Byte> -> string, table: map<Word, string>, cut: nat,
                e: Entry) returns (next: nat, more: map<Word, string>)
    requires n > 0 && EntryAt(data, at, e) && at + 16 + |e.text| <= cut <= |data|
    ensures ReadTable(data, at, n, decode, table) == ReadTable(data, next, n - 1, decode, more)
    ensures ReadTable(data[..cut], at, n, decode, table) == ReadTable(data[..cut], next, n - 1, decode, more)
    ensures n == 1 ==> TableEnd(data, at, n) <= cut
    ensures n > 1 ==> TableEnd(data, at, n) == TableEnd(data, next, n - 1)
  {
    next, more := at + 16 + |e.text| + Pad(|e.text|), table[e.p := decode(e.text)];
    CutAfterEntry(data, at, e, cut);
    TableEndAfter(data, at, n, e);
    ReadEntry(data, at, n, decode, table, e);
    ReadEntry(data[..cut], at, n, decode, table, e);
  }

  ghost function EntryOf(data: seq<Byte>, at: nat): (e: Entry)
    requires at + 16 <= |data| && at + 16 + ReadWord(data, at + 8) <= |data|
    ensures EntryAt(data, at, e)
  {
    Entry(ReadWord(data, at), data[at + 16..at + 16 + ReadWord(data, at + 8)])
  }

  lemma ReadFits(data: seq<Byte>, at: nat, n: nat, decode: seq<Byte> -> string, table: map<Word, string>)
    requires n > 0 && ReadTable(data, at, n, decode, table).Ok?
    ensures at + 16 <= |data| && at + 16 + ReadWord(data, at + 8) <= |data|
  {
  }

  lemma CutInsideEntry(data: seq<Byte>, at: nat, n: nat, decode: seq<Byte> -> string, table: map<Word, string>,
                       cut: nat)
    requires n > 0 && cut <= |data| && at + 16 <= |data| && cut < at + 16 + ReadWord(data, at + 8)
    ensures ReadTable(data[..cut], at, n, decode, table).Err?
  {
    if at + 16 <= cut {
      SameWord(data, cut, at + 8);
    }
  }

  lemma CutAfterEntry(data: seq<Byte>, at: nat, e: Entry, cut: nat)
    requires EntryAt(data, at, e) && at + 16 + |e.text| <= cut <= |data|
    ensures EntryAt(data[..cut], at, e)
  {
    SameWord(data, cut, at);
    SameWord(data, cut, at + 8);
    assert data[..cut][at + 16..at + 16 + |e.text|] == data[at + 16..at + 16 + |e.text|];
  }

  lemma SameWord(data: seq<Byte>, cut: nat, at: nat)
    requires at + 8 <= cut <= |data|
    ensures ReadWord(data[..cut], at) == ReadWord(data, at)
  {
    assert data[..cut][at..at + 8] == data[at..at + 8];
  }

  /** The bytes of an accepted dump that its parse depends on. */
  ghost function DumpEnd(data: seq<Byte>): nat
    requires |data| >= 32
  {
    TableEnd(data, 32 + 32 * ReadWord(data, 16), ReadWord(data, 24))
  }

  /** An accepted dump that is cut short parses to the same string table or is refused, exactly by where it is cut. */
  lemma CutDump(data: seq<Byte>, decode: seq<Byte> -> string, cut: nat)
    requires Check(data, decode).Ok? && cut <= |data|
    ensures cut < DumpEnd(data) ==> Check(data[..cut], decode).Err?
    ensures DumpEnd(data) <= cut ==> Check(data[..cut], decode) == Check(data, decode)
  {
    if cut >= 32 {
      SameWord(data, cut, 0);
      SameWord(data, cut, 16);
      SameWord(data, cut, 24);
      var start := 32 + 32 * ReadWord(data, 16) as nat;
      if start <= cut {
        if DumpEnd(data) <= cut {
          CutBehindTable(data, start, ReadWord(data, 24), decode, map[], cut);
        } else {
          CutInsideTable(data, start, ReadWord(data, 24), decode, map[], cut);
        }
      }
    }
  }
}
