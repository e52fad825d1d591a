/**
  The text of a locally calculated CRC: the big-endian bytes of the register in base64, as
  `src/operation/checksum.rs` produces it and `src/client/multipart/headers.rs` checks it.
 */
module ChecksumHeader {
  import opened Gf2
  import opened Wire
  import Crc
  import opened CrcStandards
  import Base64

  /** `to_be_bytes` of an n-byte word. */
  function BigEndian(value: nat, n: nat): (r: seq<Byte>)
    ensures |r| == n
    decreases n, value
  {
    if n == 0 then [] else BigEndian(value / 256, n - 1) + [value % 256]
  }

  lemma {:induction false} BigEndianInjective(x: nat, y: nat, n: nat)
    requires x < Pow2(8 * n) && y < Pow2(8 * n) && BigEndian(x, n) == BigEndian(y, n)
    ensures x == y
    decreases n
  {
    hide Pow2;
    if n == 0 {
      PowerOfNone();
    } else {
      Crc.Pow2Sum(8, 8 * (n - 1));
      Crc.Pow2Eight();
      var p, q := BigEndian(x / 256, n - 1), BigEndian(y / 256, n - 1);
      var v, w := BigEndian(x, n), BigEndian(y, n);
      assert v[..n - 1] == p && w[..n - 1] == q && v[n - 1] == x % 256 && w[n - 1] == y % 256;
      BigEndianInjective(x / 256, y / 256, n - 1);
    }
  }

  lemma PowerOfNone()
    ensures Pow2(0) == 1
  {
  }

  /** The checksum field of a message, for an n-byte CRC. */
  function Field(n: nat, poly: nat, message: seq<Byte>): seq<Byte>
    requires Crc.Generator(8 * n, poly)
  {
    Base64.Encode(BigEndian(Crc.Checksum(8 * n, poly, message), n))
  }

  /** Two messages have the same field exactly when they have the same checksum. */
  lemma FieldIffChecksum(n: nat, poly: nat, a: seq<Byte>, b: seq<Byte>)
    requires Crc.Generator(8 * n, poly)
    ensures Field(n, poly, a) == Field(n, poly, b)
       <==> Crc.Checksum(8 * n, poly, a) == Crc.Checksum(8 * n, poly, b)
  {
    hide Base64.Encode, BigEndian, Crc.Generator, Crc.Checksum, Pow2;
    var x, y := Crc.Checksum(8 * n, poly, a), Crc.Checksum(8 * n, poly, b);
    Crc.ChecksumBound(8 * n, poly, a);
    Crc.ChecksumBound(8 * n, poly, b);
    if Field(n, poly, a) == Field(n, poly, b) {
      Base64.EncodeInjective(BigEndian(x, n), BigEndian(y, n));
      BigEndianInjective(x, y, n);
    }
  }

  /**
    Every calculated field passes the validator for its length, and a change confined to n
    consecutive bytes of the message always shows in the field.
   */
  lemma FieldIsValidAndDetects(n: nat, poly: nat, prefix: seq<Byte>, a: seq<Byte>, b: seq<Byte>, suffix: seq<Byte>)
    requires Crc.Generator(8 * n, poly)
    ensures n > 0 && Base64.ValidDigest(Field(n, poly, a), n)
    ensures |a| == |b| <= n && a != b ==> Field(n, poly, prefix + a + suffix) != Field(n, poly, prefix + b + suffix)
  {
    assert n > 0;
    hide Base64.Encode, Base64.ValidDigest, BigEndian, Crc.Generator, Crc.Checksum, Pow2;
    Base64.EncodeIsValid(BigEndian(Crc.Checksum(8 * n, poly, a), n));
    if |a| == |b| <= n && a != b {
      Crc.BurstDetection(8 * n, poly, prefix, a, b, suffix);
      FieldIffChecksum(n, poly, prefix + a + suffix, prefix + b + suffix);
    }
  }

  /** The field shows every burst of at most 8n bits, wherever it starts. */
  lemma FieldShowsBurst(n: nat, poly: nat, a: seq<Byte>, b: seq<Byte>, e: nat, k: nat)
    requires Crc.Generator(8 * n, poly) && |a| == |b| && 0 < e < Pow2(8 * n)
    requires Xor(Crc.MessagePolynomial(0, a), Crc.MessagePolynomial(0, b)) == e * Pow2(k)
    ensures Field(n, poly, a) != Field(n, poly, b)
  {
    hide Field, Crc.Generator, Crc.Checksum, Crc.MessagePolynomial, Pow2, Xor;
    Crc.BitBurstDetection(8 * n, poly, a, b, e, k);
    FieldIffChecksum(n, poly, a, b);
  }

  // ----- calculate and calculate_cooperatively -----------------------------------------------------

  datatype Algorithm = Crc32 | Crc32c | Crc64Nvme | Sha1 | Sha256

  /** `Checksum`: at most one field is set by a calculation. */
  datatype Checksums = Checksums(
    crc32: Option<Text>,
    crc32c: Option<Text>,
    crc64Nvme: Option<Text>,
    sha1: Option<Text>,
    sha256: Option<Text>)

  const UNSET := Checksums(None, None, None, None, None)

  /** The number that bytes stand for, most significant first. */
  function NumberOf(d: seq<Byte>): nat {
    if d == [] then 0 else NumberOf(d[..|d| - 1]) * 256 + d[|d| - 1]
  }

  lemma {:induction false} NumberOfBigEndian(v: nat, n: nat)
    requires v < Pow2(8 * n)
    ensures NumberOf(BigEndian(v, n)) == v
    decreases n
  {
    hide Pow2;
    if n == 0 {
      PowerOfNone();
    } else {
      Crc.Pow2Sum(8, 8 * (n - 1));
      Crc.Pow2Eight();
      var d := BigEndian(v, n);
      assert d[..n - 1] == BigEndian(v / 256, n - 1) && d[n - 1] == v % 256;
      NumberOfBigEndian(v / 256, n - 1);
    }
  }

  /** The base64 text of the n bytes, most significant first, of the CRC by this divisor. */
  ghost predicate IsCrcField(n: nat, divisor: nat, message: seq<Byte>, field: Text) {
    exists d: seq<Byte> ::
      |d| == n && Base64.Encode(d) == field && IsCrc(8 * n, divisor, message, NumberOf(d))
  }

  /** What a calculation must return, from the standards alone. */
  ghost predicate Calculated(sha256: Text -> Text, algorithm: Algorithm, bytes: Text, r: Result<Checksums, Algorithm>) {
    match algorithm
    case Crc32 =>
      r.Ok? && r.value.crc32.Some? && IsCrcField(4, 0x1_04C1_1DB7, bytes, r.value.crc32.value)
      && r.value == Checksums(r.value.crc32, None, None, None, None)
    case Crc32c =>
      r.Ok? && r.value.crc32c.Some? && IsCrcField(4, 0x1_1EDC_6F41, bytes, r.value.crc32c.value)
      && r.value == Checksums(None, r.value.crc32c, None, None, None)
    case Crc64Nvme =>
      r.Ok? && r.value.crc64Nvme.Some? && IsCrcField(8, 0x1_AD93_D235_94C9_3659, bytes, r.value.crc64Nvme.value)
      && r.value == Checksums(None, None, r.value.crc64Nvme, None, None)
    case Sha256 => r == Ok(Checksums(None, None, None, None, Some(Base64.Encode(sha256(bytes)))))
    case Sha1 => r == Err(Sha1)
  }

  lemma {:induction false} FieldIsCrcField(n: nat, poly: nat, message: seq<Byte>, checksum: nat)
    requires Crc.Generator(8 * n, poly) && checksum == Crc.Checksum(8 * n, poly, message)
    ensures IsCrcField(n, Crc.Divisor(8 * n, poly), message, Base64.Encode(BigEndian(checksum, n)))
  {
    hide Base64.Encode, BigEndian, Crc.Generator, Crc.Checksum, Crc.Divisor, Pow2, IsCrc;
    Crc.ChecksumBound(8 * n, poly, message);
    ChecksumIffCrc(8 * n, poly, message, checksum);
    NumberOfBigEndian(checksum, n);
  }

  /** `Checksum::calculate`. */
  method Calculate(sha256: Text -> Text, algorithm: Algorithm, bytes: Text) returns (r: Result<Checksums, Algorithm>)
    ensures Calculated(sha256, algorithm, bytes, r)
  {
    hide Base64.Encode, BigEndian, Crc.Generator, Crc.Checksum, Crc.Divisor, Pow2, IsCrcField;
    Crc.Generators();
    match algorithm {
      case Crc32 =>
        var value := Crc.Calculate(32, Crc.CRC32_POLYNOMIAL, bytes);
        Crc32Generator();
        FieldIsCrcField(4, Crc.CRC32_POLYNOMIAL, bytes, value);
        r := Ok(UNSET.(crc32 := Some(Base64.Encode(BigEndian(value, 4)))));
      case Crc32c =>
        var value := Crc.Calculate(32, Crc.CRC32C_POLYNOMIAL, bytes);
        Crc32cGenerator();
        FieldIsCrcField(4, Crc.CRC32C_POLYNOMIAL, bytes, value);
        r := Ok(UNSET.(crc32c := Some(Base64.Encode(BigEndian(value, 4)))));
      case Crc64Nvme =>
        var value := Crc.Calculate(64, Crc.CRC64_NVME_POLYNOMIAL, bytes);
        Crc64NvmeGenerator();
        FieldIsCrcField(8, Crc.CRC64_NVME_POLYNOMIAL, bytes, value);
        r := Ok(UNSET.(crc64Nvme := Some(Base64.Encode(BigEndian(value, 8)))));
      case Sha256 =>
        r := Ok(UNSET.(sha256 := Some(Base64.Encode(sha256(bytes)))));
      case Sha1 =>
        r := Err(Sha1);
    }
  }

  /** `Checksum::calculate_cooperatively`. */
  method CalculateCooperatively(sha256: Text -> Text, algorithm: Algorithm, bytes: Text)
    returns (r: Result<Checksums, Algorithm>)
    ensures Calculated(sha256, algorithm, bytes, r)
  {
    hide Base64.Encode, BigEndian, Crc.Generator, Crc.Checksum, Crc.Divisor, Pow2, IsCrcField;
    Crc.Generators();
    match algorithm {
      case Crc32 =>
        var value := Crc.CalculateCooperatively(32, Crc.CRC32_POLYNOMIAL, bytes);
        Crc32Generator();
        FieldIsCrcField(4, Crc.CRC32_POLYNOMIAL, bytes, value);
        r := Ok(UNSET.(crc32 := Some(Base64.Encode(BigEndian(value, 4)))));
      case Crc32c =>
        var value := Crc.CalculateCooperatively(32, Crc.CRC32C_POLYNOMIAL, bytes);
        Crc32cGenerator();
        FieldIsCrcField(4, Crc.CRC32C_POLYNOMIAL, bytes, value);
        r := Ok(UNSET.(crc32c := Some(Base64.Encode(BigEndian(value, 4)))));
      case Crc64Nvme =>
        var value := Crc.CalculateCooperatively(64, Crc.CRC64_NVME_POLYNOMIAL, bytes);
        Crc64NvmeGenerator();
        FieldIsCrcField(8, Crc.CRC64_NVME_POLYNOMIAL, bytes, value);
        r := Ok(UNSET.(crc64Nvme := Some(Base64.Encode(BigEndian(value, 8)))));
      case Sha256 =>
        r := Ok(UNSET.(sha256 := Some(Base64.Encode(sha256(bytes)))));
      case Sha1 =>
        r := Err(Sha1);
    }
  }

  /** The standards leave no choice: two results of one calculation are equal. */
  lemma {:induction false} CalculationIsDetermined(
    sha256: Text -> Text, algorithm: Algorithm, bytes: Text,
    r: Result<Checksums, Algorithm>, s: Result<Checksums, Algorithm>)
    requires Calculated(sha256, algorithm, bytes, r) && Calculated(sha256, algorithm, bytes, s)
    ensures r == s
  {
    hide IsCrcField, Base64.Encode, Crc.Generator, Crc.Divisor;
    Crc.Generators();
    match algorithm
    case Crc32 =>
      Crc32Generator();
      FieldIsDetermined(4, Crc.CRC32_POLYNOMIAL, bytes, r.value.crc32.value, s.value.crc32.value);
    case Crc32c =>
      Crc32cGenerator();
      FieldIsDetermined(4, Crc.CRC32C_POLYNOMIAL, bytes, r.value.crc32c.value, s.value.crc32c.value);
    case Crc64Nvme =>
      Crc64NvmeGenerator();
      FieldIsDetermined(8, Crc.CRC64_NVME_POLYNOMIAL, bytes, r.value.crc64Nvme.value, s.value.crc64Nvme.value);
    case _ =>
  }

  lemma {:induction false} FieldIsDetermined(n: nat, poly: nat, bytes: Text, f: Text, g: Text)
    requires Crc.Generator(8 * n, poly)
    requires IsCrcField(n, Crc.Divisor(8 * n, poly), bytes, f) && IsCrcField(n, Crc.Divisor(8 * n, poly), bytes, g)
    ensures f == g
  {
    hide Base64.Encode, Crc.Generator, Crc.Divisor, Crc.Checksum, IsCrc, NumberOf;
    var divisor := Crc.Divisor(8 * n, poly);
    var d: seq<Byte> :| |d| == n && Base64.Encode(d) == f && IsCrc(8 * n, divisor, bytes, NumberOf(d));
    var e: seq<Byte> :| |e| == n && Base64.Encode(e) == g && IsCrc(8 * n, divisor, bytes, NumberOf(e));
    ChecksumIffCrc(8 * n, poly, bytes, NumberOf(d));
    ChecksumIffCrc(8 * n, poly, bytes, NumberOf(e));
    NumberInjective(d, e);
  }

  lemma {:induction false} NumberInjective(d: seq<Byte>, e: seq<Byte>)
    requires |d| == |e| && NumberOf(d) == NumberOf(e)
    ensures d == e
  {
    if d != [] {
      NumberInjective(d[..|d| - 1], e[..|e| - 1]);
      assert d == d[..|d| - 1] + [d[|d| - 1]] && e == e[..|e| - 1] + [e[|e| - 1]];
    }
  }
}
