/** The executable image: a 100-byte header, the read-only data, then the code. */
module ExecutableImage {
  import opened Words
  import opened ByteCode
  import opened Buffers
  import opened ReadOnlyData
  import opened ObjectFormat
  import opened ObjectRoundTrip
  import opened Packer

  const HEADER_SIZE := 100

  function Magic(): (s: seq<Byte>) ensures |s| == 4 { [77, 83, 76, 73] }

  /** alignedRodSize: the room the read-only data takes in the image. */
  datatype ExecutionData = ExecutionData(version: Version, vmType: Byte, rod: seq<Byte>, alignedRodSize: nat, code: seq<Byte>)

  predicate Fits(d: ExecutionData) {
    |d.rod| <= d.alignedRodSize && HEADER_SIZE + d.alignedRodSize + |d.code| < TWO64
  }

  /** The flags are skipped and stay zero. */
  function Header(d: ExecutionData): (s: seq<Byte>)
    ensures |s| == 43
  {
    Magic() + d.version + Zeros(2) + [d.vmType] + LE(HEADER_SIZE, 8) + LE(d.alignedRodSize, 8)
    + LE(HEADER_SIZE + d.alignedRodSize, 8) + LE(|d.code|, 8)
  }

  function ImageBytes(d: ExecutionData): seq<Byte> {
    PadTo(Header(d), HEADER_SIZE) + PadTo(d.rod, d.alignedRodSize) + d.code
  }

  datatype InterpretationState = InterpretationState(version: Version, flags: nat, vmType: Byte, rod: seq<Byte>, code: seq<Byte>)

  /** Only the code's range is checked; a header or read-only data past the file's end is undefined in the original. */
  function LoadImage(b: seq<Byte>): Option<InterpretationState> {
    if |b| < 43 || b[..4] != Magic() then None
    else
      var rodOffset, rodSize, codeOffset, codeSize := ReadNat(b, 11, 8), ReadNat(b, 19, 8), ReadNat(b, 27, 8), ReadNat(b, 35, 8);
      if |b| < codeOffset + codeSize || |b| < rodOffset + rodSize then None
      else Some(InterpretationState(b[4..8], ReadNat(b, 8, 2), b[10], b[rodOffset..rodOffset + rodSize], b[codeOffset..codeOffset + codeSize]))
  }

  /** The interpreter gets the code and the padded read-only data that the linker saved. */
  lemma ImageRoundTrip(d: ExecutionData)
    requires Fits(d)
    ensures LoadImage(ImageBytes(d)) == Some(InterpretationState(d.version, 0, d.vmType, PadTo(d.rod, d.alignedRodSize), d.code))
  {
    hide LE, ReadNat;
    var b, rod := ImageBytes(d), PadTo(d.rod, d.alignedRodSize);
    var pad := Zeros(HEADER_SIZE - 43);
    Whole(b);
    AtSplit(b, 0, Header(d) + pad + rod, d.code);
    AtSplit(b, 0, Header(d) + pad, rod);
    AtSplit(b, 0, Header(d), pad);
    HeaderRead(b, d);
  }

  lemma HeaderRead(b: seq<Byte>, d: ExecutionData)
    requires Fits(d) && At(b, 0, Header(d))
    ensures |b| >= 43 && b[..4] == Magic() && b[4..8] == d.version && ReadNat(b, 8, 2) == 0 && b[10] == d.vmType
    ensures ReadNat(b, 11, 8) == HEADER_SIZE && ReadNat(b, 19, 8) == d.alignedRodSize
    ensures ReadNat(b, 27, 8) == HEADER_SIZE + d.alignedRodSize && ReadNat(b, 35, 8) == |d.code|
  {
    hide LE, ReadNat;
    var a := Magic() + d.version + Zeros(2) + [d.vmType];
    var x, y, z, w := LE(HEADER_SIZE, 8), LE(d.alignedRodSize, 8), LE(HEADER_SIZE + d.alignedRodSize, 8), LE(|d.code|, 8);
    AtSplit(b, 0, a + x + y + z, w);
    AtSplit(b, 0, a + x + y, z);
    AtSplit(b, 0, a + x, y);
    AtSplit(b, 0, a, x);
    AtWord(b, 11, HEADER_SIZE);
    AtWord(b, 19, d.alignedRodSize);
    AtWord(b, 27, HEADER_SIZE + d.alignedRodSize);
    AtWord(b, 35, |d.code|);
    AtSplit(b, 0, Magic() + d.version + Zeros(2), [d.vmType]);
    AtByte(b, 10, d.vmType);
    AtSplit(b, 0, Magic() + d.version, Zeros(2));
    AtSplit(b, 0, Magic(), d.version);
    NoFlags(b);
  }

  lemma NoFlags(b: seq<Byte>)
    requires At(b, 8, Zeros(2))
    ensures |b| >= 10 && ReadNat(b, 8, 2) == 0
  {
    ZeroBytes(b[8..10]);
    assert b[8..10] == Zeros(2);
  }

  method SaveImage(d: ExecutionData) returns (buffer: array<Byte>)
    requires |d.rod| <= d.alignedRodSize
    ensures fresh(buffer) && buffer[..] == ImageBytes(d)
  {
    hide LE;
    buffer := new Byte[HEADER_SIZE + d.alignedRodSize + |d.code|](_ => 0);
    assert buffer[..] == [] + Zeros(buffer.Length);
    var offset := AppendBytes(buffer, 0, Magic(), []);
    ghost var w := [] + Magic();
    offset := AppendBytes(buffer, offset, d.version, w);
    w := w + d.version;
    Skipped(buffer[..], w, 10);
    w := PadTo(w, 10);
    offset := AppendBytes(buffer, 10, [d.vmType], w);
    w := w + [d.vmType];
    offset := AppendBytes(buffer, offset, LE(HEADER_SIZE, 8), w);
    w := w + LE(HEADER_SIZE, 8);
    offset := AppendBytes(buffer, offset, LE(d.alignedRodSize, 8), w);
    w := w + LE(d.alignedRodSize, 8);
    offset := AppendBytes(buffer, offset, LE(HEADER_SIZE + d.alignedRodSize, 8), w);
    w := w + LE(HEADER_SIZE + d.alignedRodSize, 8);
    offset := AppendBytes(buffer, offset, LE(|d.code|, 8), w);
    w := w + LE(|d.code|, 8);
    assert w == Header(d);
    Skipped(buffer[..], w, HEADER_SIZE);
    w := PadTo(w, HEADER_SIZE);
    offset := AppendBytes(buffer, HEADER_SIZE, d.rod, w);
    Skipped(buffer[..], w + d.rod, HEADER_SIZE + d.alignedRodSize);
    assert PadTo(w + d.rod, HEADER_SIZE + d.alignedRodSize) == w + PadTo(d.rod, d.alignedRodSize);
    w := w + PadTo(d.rod, d.alignedRodSize);
    offset := AppendBytes(buffer, HEADER_SIZE + d.alignedRodSize, d.code, w);
    assert w + d.code + Zeros(0) == w + d.code;
  }
}
