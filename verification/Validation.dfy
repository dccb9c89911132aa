/** The acceptance test for a payload (validation.cpp): the expected size and a NetCDF or HDF5 signature. */
module Validation {
  import opened Wrappers
  import opened FileSystem

  const HDF5_MAGIC: Bytes := "\U{89}HDF\r\n\U{1A}\n"

  predicate IsClassicNetcdf(b: Bytes) {
    && |b| >= 4
    && b[..3] == "CDF"
    && (b[3] == '\U{01}' || b[3] == '\U{02}' || b[3] == '\U{05}')
  }

  predicate HasSignature(b: Bytes) {
    IsClassicNetcdf(b) || HDF5_MAGIC <= b
  }

  /** validate_netcdf_file: a missing file, a wrong size, fewer than four bytes or another signature is refused. */
  predicate IsValidFile(f: Files, s: Slot, expectedSize: Option<nat>) {
    && s in f
    && (expectedSize.Some? ==> |f[s]| == expectedSize.value)
    && |f[s]| >= 4
    && HasSignature(f[s])
  }


  /** The signatures that are accepted: three classic NetCDF versions by four bytes, and HDF5 by eight. */
  lemma SignatureIff(b: Bytes)
    ensures HasSignature(b) <==>
            || (|b| >= 4 && b[..4] in {"CDF\U{01}", "CDF\U{02}", "CDF\U{05}"})
            || (|b| >= 8 && b[..8] == "\U{89}HDF\r\n\U{1A}\n")
  {
    if |b| >= 4 {
      assert b[..4] == b[..3] + [b[3]];
      assert "CDF\U{01}" == "CDF" + ['\U{01}'] && "CDF\U{02}" == "CDF" + ['\U{02}'];
      assert "CDF\U{05}" == "CDF" + ['\U{05}'];
      FourthByte(b[..3], b[3], '\U{01}');
      FourthByte(b[..3], b[3], '\U{02}');
      FourthByte(b[..3], b[3], '\U{05}');
    }
  }


  lemma FourthByte(three: Bytes, fourth: char, version: char)
    requires |three| == 3
    ensures three + [fourth] == "CDF" + [version] <==> three == "CDF" && fourth == version
  {
    var x, y := three + [fourth], "CDF" + [version];
    assert x[..3] == three && x[3] == fourth && y[..3] == "CDF" && y[3] == version;
  }
}
