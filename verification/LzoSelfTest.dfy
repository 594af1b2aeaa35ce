/** The library used end to end, as its own small test program does. */
module LzoSelfTest {
  import opened Bytes
  import M = LzoMachine
  import P = LzoParse
  import C = LzoCompress
  import D = LzoDecompress
  import R = LzoRoundTrip

  /**
   * Compress any bytes into a buffer of the documented size, then decompress with either decoder
   * into a buffer of the original size. The builds at the two ends need not be the same.
   */
  method RoundTrip(inp: array<byte>, checked: bool, wideHere: bool, wideThere: bool)
    returns (code: M.Code, outLen: nat, restored: array<byte>)
    ensures code == M.Ok && outLen == inp.Length
    ensures restored[..] == inp[..]
  {
    var packed := new byte[C.Room(inp.Length) + M.SLACK];
    var dict := new nat[P.DICT_SIZE];
    var n := C.Compress(inp, packed, dict, wideHere);
    ghost var s, behind := packed[..n], packed[n..];
    assert M.On(s, behind, inp.Length).inp == packed[..];
    R.EncodingIsDecoded(s, inp[..], behind, inp.Length);
    restored := new byte[inp.Length];
    code, outLen := D.Decompress(packed, n, restored, inp.Length, checked, wideThere);
    assert restored[..outLen] == restored[..];
  }
}
