/**
 * `readRAM` of the factory-mode NetMD service: the RAM of the recorder is
 * read in 16-byte slices starting at address 0x02000000, and the slices are
 * concatenated. The size of the RAM depends on the firmware code. The
 * device read (`cleanRead`) is a parameter: the bytes found at an address.
 */
module FactoryRam {
  import opened Strings

  type byte = bv8

  /** The address the first slice is read from. */
  const RamBase: int := 0x0200_0000

  /** How many bytes one `cleanRead` asks for. */
  const SliceSize: nat := 0x10

  /** One progress report handed to the callback. */
  datatype Progress = Progress(readBytes: nat, totalBytes: nat)

  /** Firmware codes starting with `R` have 0x4800 bytes of RAM, the others 0x9000. */
  function RamSize(firmwareVersion: string): (r: nat)
    ensures r == 0x4800 <==> StartsWith(firmwareVersion, "R")
    ensures r == 0x9000 <==> !StartsWith(firmwareVersion, "R")
    ensures r % SliceSize == 0
  {
    if StartsWith(firmwareVersion, "R") then 0x4800 else 0x9000
  }

  /** The first `n` slices, read one after the other and concatenated. */
  function Dump(cleanRead: int -> seq<byte>, n: nat): seq<byte> {
    if n == 0 then [] else Dump(cleanRead, n - 1) + cleanRead(RamBase + SliceSize * (n - 1))
  }

  /** The reports made while reading `n` slices of a RAM of `total` bytes. */
  function Reports(n: nat, total: nat): (r: seq<Progress>)
    ensures |r| == n
    ensures forall k :: 0 <= k < n ==> r[k] == Progress(SliceSize * k, total)
  {
    seq(n, k requires 0 <= k => Progress(SliceSize * k, total))
  }

  /** A device whose every read returns the 16 bytes asked for. */
  ghost predicate WholeSlices(cleanRead: int -> seq<byte>) {
    forall a :: |cleanRead(a)| == SliceSize
  }

  /**
   * With whole slices the dump is the memory image: byte `j` of the dump is
   * the byte at address 0x02000000 + j.
   */
  lemma {:induction false} DumpIsImage(cleanRead: int -> seq<byte>, n: nat)
    requires WholeSlices(cleanRead)
    ensures |Dump(cleanRead, n)| == SliceSize * n
    ensures forall j :: 0 <= j < SliceSize * n ==>
      Dump(cleanRead, n)[j] == cleanRead(RamBase + j - j % SliceSize)[j % SliceSize]
  {
    if n > 0 {
      DumpIsImage(cleanRead, n - 1);
      var prefix := Dump(cleanRead, n - 1);
      var last := cleanRead(RamBase + SliceSize * (n - 1));
      assert Dump(cleanRead, n) == prefix + last;
      forall j | SliceSize * (n - 1) <= j < SliceSize * n
        ensures Dump(cleanRead, n)[j] == cleanRead(RamBase + j - j % SliceSize)[j % SliceSize]
      {
        var o := j - SliceSize * (n - 1);
        assert j % SliceSize == o by {
          assert j == SliceSize * (n - 1) + o;
        }
      }
    }
  }

  /**
   * `readRAM`: one read per 16 bytes of RAM, a progress report after each
   * read when a callback is given, and the slices concatenated.
   */
  method ReadRam(firmwareVersion: string, cleanRead: int -> seq<byte>, hasCallback: bool)
    returns (data: seq<byte>, progress: seq<Progress>)
    ensures var size := RamSize(firmwareVersion);
      && data == Dump(cleanRead, size / SliceSize)
      && progress == (if hasCallback then Reports(size / SliceSize, size) else [])
  {
    var ramSize := if StartsWith(firmwareVersion, "R") then 0x4800 else 0x9000;
    data := [];
    progress := [];
    var i := 0;
    while i < ramSize
      invariant 0 <= i <= ramSize && i % SliceSize == 0
      invariant data == Dump(cleanRead, i / SliceSize)
      invariant progress == (if hasCallback then Reports(i / SliceSize, ramSize) else [])
    {
      data := data + cleanRead(i + RamBase);
      if hasCallback {
        progress := progress + [Progress(i, ramSize)];
      }
      i := i + SliceSize;
    }
  }

  /**
   * What a caller sees: with whole slices the result holds the whole RAM,
   * the first report says nothing was read yet and the last one stops one
   * slice short of the total.
   */
  lemma ReadRamOutcome(firmwareVersion: string, cleanRead: int -> seq<byte>)
    requires WholeSlices(cleanRead)
    ensures var size := RamSize(firmwareVersion);
      var reports := Reports(size / SliceSize, size);
      && |Dump(cleanRead, size / SliceSize)| == size
      && reports[0] == Progress(0, size)
      && reports[|reports| - 1] == Progress(size - SliceSize, size)
  {
    DumpIsImage(cleanRead, RamSize(firmwareVersion) / SliceSize);
  }
}
