/** Compressors (protocol/compress.go). The stream functions of gzip are a parameter. */
module Compression {
  import opened Bytes
  import opened Results
  import opened Headers

  const THRESHOLD := 1024

  /** A pair of byte transformers; None is an error return. */
  datatype Codec = Codec(zip: bytes -> Option<bytes>, unzip: bytes -> Option<bytes>)

  /** The implementations of the Compressor interface: the two of the package and any other. */
  datatype Compressor = RawData | GzipStream(gzip: Codec) | Other(codec: Codec)

  function Zip(c: Compressor, data: bytes): Option<bytes> {
    match c
    case RawData => Some(data)
    case Other(codec) => codec.zip(data)
    case GzipStream(gzip) =>
      // falls back to the data itself, without an error
      if |data| < THRESHOLD then Some(data) else
      match gzip.zip(data)
      case None => Some(data)
      case Some(z) => if |z| >= |data| then Some(data) else Some(z)
  }

  function Unzip(c: Compressor, data: bytes): Option<bytes> {
    match c
    case RawData => Some(data)
    case Other(codec) => codec.unzip(data)
    case GzipStream(gzip) => if data == [] then Some(data) else gzip.unzip(data)
  }

  function DefaultCompressors(gzip: Codec): map<byte, Compressor> {
    map[NoCompression := RawData, Gzip := GzipStream(gzip)]
  }

  /** The law taken from RFC 1952: unzipping the zipped form of non-empty data gives the data back. */
  ghost predicate GzipLaw(gzip: Codec) {
    forall x, z :: x != [] && gzip.zip(x) == Some(z) ==> Unzip(GzipStream(gzip), z) == Some(x)
  }

  /** Whatever a compressor shortens can be sent in place of the data. */
  ghost predicate Lossless(c: Compressor) {
    forall x, z :: Zip(c, x) == Some(z) && |z| < |x| ==> z != [] && Unzip(c, z) == Some(x)
  }

  lemma DefaultsAreLossless(gzip: Codec)
    requires GzipLaw(gzip)
    ensures Lossless(RawData) && Lossless(GzipStream(gzip))
  {
    var c := GzipStream(gzip);
    forall x, z | Zip(c, x) == Some(z) && |z| < |x| ensures z != [] && Unzip(c, z) == Some(x) {
      assert gzip.zip(x) == Some(z);
    }
  }

  /** Although Zip may silently return raw data, a result is shorter than its input exactly when it is the
      output of the gzip stream; otherwise it is the input. */
  lemma ShorterIsZipped(gzip: Codec, x: bytes)
    ensures var r := Zip(GzipStream(gzip), x);
            r.Some? && (|r.value| < |x| ==> |x| >= THRESHOLD && r == gzip.zip(x)) && (|r.value| >= |x| ==> r.value == x)
  {
  }
}
