/** The reference provider's model bytes: a tag, a luma threshold and a minimum area. */
module ModelFiles {
  import opened Statuses
  import Detector
  import opened Words

  const MODEL_SIZE := 12
  const TAG: seq<Byte> := [0x53, 0x43, 0x4D, 0x31]

  function EncodeModel(p: Detector.ModelParameters): (bytes: seq<Byte>)
    ensures |bytes| == MODEL_SIZE
  {
    TAG + [p.lumaThreshold, 0, 0, 0] + LittleEndian(p.minimumArea, 4)
  }

  /** The checks in the code's order; a null span is no bytes at all. */
  function ParseModel(bytes: Option<seq<Byte>>): (parameters: Option<Detector.ModelParameters>) {
    if bytes.None? || |bytes.value| != MODEL_SIZE then None
    else
      var b := bytes.value;
      if b[..4] != TAG || b[5] != 0 || b[6] != 0 || b[7] != 0 then None
      else
        var minimumArea := FromLittleEndian(b[8..12]) % U32_LIMIT;
        if minimumArea == 0 then None else Some(Detector.ModelParameters(b[4], minimumArea))
  }

  /** The bytes accepted are exactly the encodings of parameters with a positive minimum area, and they parse to the
      parameters they encode. */
  lemma ModelRoundTrip(bytes: Option<seq<Byte>>, p: Detector.ModelParameters)
    ensures ParseModel(bytes) == Some(p) <==> p.minimumArea > 0 && bytes == Some(EncodeModel(p))
  {
    hide LittleEndian, FromLittleEndian, Power256;
    Powers();
    LittleEndianRoundTrip(p.minimumArea, 4);
    var e := EncodeModel(p);
    assert e[..4] == TAG && e[8..12] == LittleEndian(p.minimumArea, 4);
    if bytes.Some? && |bytes.value| == MODEL_SIZE {
      var b := bytes.value;
      FromLittleEndianBound(b[8..12]);
      FromLittleEndianBack(b[8..12]);
      assert b == b[..4] + [b[4], b[5], b[6], b[7]] + b[8..12];
    }
  }

  /** Byte by byte: twelve bytes that begin with the letters SCM1, then the luma threshold and three zeros, then a
      positive minimum area, little-endian. */
  lemma ParseExactly(bytes: Option<seq<Byte>>)
    ensures ParseModel(bytes).Some? <==>
            && bytes.Some? && |bytes.value| == 12
            && var b := bytes.value;
               && b[0] == 'S' as int && b[1] == 'C' as int && b[2] == 'M' as int && b[3] == '1' as int
               && b[5] == 0 && b[6] == 0 && b[7] == 0 && Read32(b, 8) > 0
    ensures ParseModel(bytes).Some? ==>
              var b, p := bytes.value, ParseModel(bytes).value;
              p.lumaThreshold == b[4] && p.minimumArea == Read32(b, 8)
  {
    if bytes.Some? && |bytes.value| == 12 {
      var b := bytes.value;
      FieldsAreWords(b, 8);
      assert b[..4] == [b[0], b[1], b[2], b[3]];
      assert Read32(b, 8) < U32_LIMIT;
    }
  }
}
