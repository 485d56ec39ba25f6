/** The YAML record of a key configuration: names for algorithm identifiers, and the public key in hex. */
module KeyConfigCodec {
  import opened Text

  datatype Algorithm = Algorithm(kdf: int, aead: int)

  /** A key configuration; the public key stands for its binary encoding. */
  datatype KeyConfig = KeyConfig(keyId: byte, kem: int, publicKey: seq<byte>, algorithms: seq<Algorithm>)

  datatype YamlAlgorithm = YamlAlgorithm(kdf: string, aead: string)

  datatype Yaml = Yaml(keyId: byte, kem: string, publicKey: string, algorithms: seq<YamlAlgorithm>)

  type Table = map<string, int>

  const AEADS: Table := map["AES128GCM" := 1, "AES256GCM" := 2, "ChaCha20Poly1305" := 3]

  const KDFS: Table := map["SHA256" := 1, "SHA384" := 2, "SHA512" := 3]

  const KEMS: Table := map[
    "P256_HKDF_SHA256" := 0x10, "P384_HKDF_SHA384" := 0x11, "P521_HKDF_SHA512" := 0x12,
    "X25519_HKDF_SHA256" := 0x20, "X448_HKDF_SHA512" := 0x21, "X25519_KYBER768_DRAFT00" := 0x30,
    "KEM_XWING" := 0x647a]

  predicate Listed(table: Table, id: int) {
    exists name :: name in table && table[name] == id
  }

  /** The name is one the table has for the identifier, or empty when it has none. */
  predicate IsName(table: Table, id: int, name: string) {
    if Listed(table, id) then name in table && table[name] == id else name == ""
  }

  /** Searches the table in whatever order the map is iterated. */
  method IdToStr(id: int, table: Table) returns (name: string)
    ensures IsName(table, id, name)
  {
    var rest := table.Keys;
    while rest != {}
      invariant rest <= table.Keys
      invariant forall k :: k in table && k !in rest ==> table[k] != id
      decreases |rest|
    {
      var k :| k in rest;
      if table[k] == id {
        return k;
      }
      rest := rest - {k};
    }
    return "";
  }

  // Hex.

  function HexDigit(n: nat): char
    requires n < 16
  {
    if n < 10 then ('0' as int + n) as char else ('a' as int + n - 10) as char
  }

  function HexValue(c: char): Option<nat> {
    if '0' <= c <= '9' then Some(c as int - '0' as int)
    else if 'a' <= c <= 'f' then Some(c as int - 'a' as int + 10)
    else if 'A' <= c <= 'F' then Some(c as int - 'A' as int + 10)
    else None
  }

  function HexEncode(bytes: seq<byte>): string {
    if bytes == [] then "" else [HexDigit(bytes[0] / 16), HexDigit(bytes[0] % 16)] + HexEncode(bytes[1..])
  }

  function HexDecode(s: string): Option<seq<byte>> {
    if s == "" then Some([])
    else if |s| == 1 then None
    else
      match (HexValue(s[0]), HexValue(s[1]), HexDecode(s[2..]))
      case (Some(hi), Some(lo), Some(rest)) =>
        HexValueRange(s[0]);
        HexValueRange(s[1]);
        Some([16 * hi + lo] + rest)
      case _ => None
  }

  lemma HexValueRange(c: char)
    ensures HexValue(c).Some? ==> HexValue(c).value < 16 && HexDigit(HexValue(c).value) == LowerChar(c)
  {
  }

  lemma {:induction false} HexRoundTrip(bytes: seq<byte>)
    ensures HexDecode(HexEncode(bytes)) == Some(bytes)
  {
    if bytes != [] {
      HexRoundTrip(bytes[1..]);
      var s := HexEncode(bytes);
      assert s[2..] == HexEncode(bytes[1..]);
      assert [bytes[0]] + bytes[1..] == bytes;
    }
  }

  lemma {:induction false} HexLowers(s: string)
    requires HexDecode(s).Some?
    ensures HexEncode(HexDecode(s).value) == ToLower(s)
  {
    if s != "" {
      HexLowers(s[2..]);
      HexValueRange(s[0]);
      HexValueRange(s[1]);
      var bytes := HexDecode(s).value;
      assert bytes[1..] == HexDecode(s[2..]).value;
      assert ToLower(s) == [LowerChar(s[0]), LowerChar(s[1])] + ToLower(s[2..]);
    }
  }

  const HEX := "0123456789abcdef"

  lemma HexDigitsInOrder(n: nat)
    requires n < 16
    ensures HexDigit(n) == HEX[n]
  {
  }

  /** Two digits for each byte, the high one first. */
  lemma {:induction false} HexMeaning(bytes: seq<byte>, i: nat)
    requires i < |bytes|
    ensures var s := HexEncode(bytes);
            |s| == 2 * |bytes| && s[2 * i] == HEX[bytes[i] / 16] && s[2 * i + 1] == HEX[bytes[i] % 16]
  {
    HexLength(bytes);
    if i == 0 {
      HexDigitsInOrder(bytes[0] / 16);
      HexDigitsInOrder(bytes[0] % 16);
    } else {
      HexMeaning(bytes[1..], i - 1);
    }
  }

  lemma {:induction false} HexLength(bytes: seq<byte>)
    ensures |HexEncode(bytes)| == 2 * |bytes|
  {
    if bytes != [] {
      HexLength(bytes[1..]);
    }
  }

  predicate IsHex(c: char) {
    '0' <= c <= '9' || 'a' <= c <= 'f' || 'A' <= c <= 'F'
  }

  /** An even number of hex digits, of either case. */
  predicate HexText(s: string) {
    |s| % 2 == 0 && forall i :: 0 <= i < |s| ==> IsHex(s[i])
  }

  lemma {:induction false} HexAccepts(s: string)
    ensures HexDecode(s).Some? <==> HexText(s)
    ensures HexText(s) ==> |HexDecode(s).value| == |s| / 2
  {
    if |s| >= 2 {
      HexAccepts(s[2..]);
      assert HexText(s) <==> IsHex(s[0]) && IsHex(s[1]) && HexText(s[2..]) by {
        assert forall i :: 2 <= i < |s| ==> s[i] == s[2..][i - 2];
      }
    }
  }

  // Marshalling.

  predicate IsNamed(a: Algorithm, y: YamlAlgorithm) {
    IsName(KDFS, a.kdf, y.kdf) && IsName(AEADS, a.aead, y.aead)
  }

  /** `y` is a record that marshalling `kc` may give; the order of map iteration decides which. */
  predicate Marshals(kc: KeyConfig, y: Yaml) {
    && y.keyId == kc.keyId
    && IsName(KEMS, kc.kem, y.kem)
    && y.publicKey == HexEncode(kc.publicKey)
    && |y.algorithms| == |kc.algorithms|
    && forall i :: 0 <= i < |kc.algorithms| ==> IsNamed(kc.algorithms[i], y.algorithms[i])
  }

  method MarshalKeyConfig(kc: KeyConfig) returns (y: Yaml)
    ensures Marshals(kc, y)
  {
    var kem := IdToStr(kc.kem, KEMS);
    var algorithms := [];
    for i := 0 to |kc.algorithms|
      invariant |algorithms| == i
      invariant forall j :: 0 <= j < i ==> IsNamed(kc.algorithms[j], algorithms[j])
    {
      var kdf := IdToStr(kc.algorithms[i].kdf, KDFS);
      var aead := IdToStr(kc.algorithms[i].aead, AEADS);
      algorithms := algorithms + [YamlAlgorithm(kdf, aead)];
    }
    y := Yaml(kc.keyId, kem, HexEncode(kc.publicKey), algorithms);
  }

  // Unmarshalling.

  datatype Failure = BadHex | EmptyKey | BadKey | InvalidKdf(name: string) | InvalidAead(name: string)

  /** `Panicked` is asking the library for the scheme of an identifier it does not know. */
  datatype Outcome = Config(kc: KeyConfig) | Rejected(why: Failure) | Panicked

  datatype Decoded = Algorithms(list: seq<Algorithm>) | Unknown(why: Failure)

  function DecodeAlgorithm(y: YamlAlgorithm): Decoded {
    if y.kdf !in KDFS then Unknown(InvalidKdf(y.kdf))
    else if y.aead !in AEADS then Unknown(InvalidAead(y.aead))
    else Algorithms([Algorithm(KDFS[y.kdf], AEADS[y.aead])])
  }

  /** Every item, or the first failure. */
  function DecodeAlgorithms(ys: seq<YamlAlgorithm>): Decoded {
    if ys == [] then Algorithms([])
    else match DecodeAlgorithms(ys[..|ys| - 1])
      case Unknown(e) => Unknown(e)
      case Algorithms(front) =>
        match DecodeAlgorithm(ys[|ys| - 1])
        case Unknown(e) => Unknown(e)
        case Algorithms(last) => Algorithms(front + last)
  }

  /** `validKey` is the library's check that the bytes are a public key of the KEM. */
  function Unmarshal(validKey: (int, seq<byte>) -> bool, y: Yaml): Outcome {
    match HexDecode(y.publicKey)
    case None => Rejected(BadHex)
    case Some(key) =>
      if key == [] then Rejected(EmptyKey)
      else if y.kem !in KEMS then Panicked
      else if !validKey(KEMS[y.kem], key) then Rejected(BadKey)
      else match DecodeAlgorithms(y.algorithms)
        case Unknown(e) => Rejected(e)
        case Algorithms(list) => Config(KeyConfig(y.keyId, KEMS[y.kem], key, list))
  }

  lemma {:induction false} UnknownStays(ys: seq<YamlAlgorithm>, n: nat)
    requires n <= |ys| && DecodeAlgorithms(ys[..n]).Unknown?
    ensures DecodeAlgorithms(ys) == DecodeAlgorithms(ys[..n])
  {
    if n < |ys| {
      var front := ys[..|ys| - 1];
      assert front[..n] == ys[..n];
      UnknownStays(front, n);
    } else {
      assert ys[..n] == ys;
    }
  }

  /** Fills the allocated slice by index and stops at the first unknown name. */
  method UnmarshalKeyConfig(validKey: (int, seq<byte>) -> bool, y: Yaml) returns (r: Outcome)
    ensures r == Unmarshal(validKey, y)
  {
    var key := HexDecode(y.publicKey);
    if key.None? {
      return Rejected(BadHex);
    }
    if |key.value| == 0 {
      return Rejected(EmptyKey);
    }
    if y.kem !in KEMS {
      return Panicked;
    }
    if !validKey(KEMS[y.kem], key.value) {
      return Rejected(BadKey);
    }
    var n := |y.algorithms|;
    var list := new Algorithm[n](_ => Algorithm(0, 0));
    for i := 0 to n
      invariant DecodeAlgorithms(y.algorithms[..i]) == Algorithms(list[..i])
    {
      var item := y.algorithms[i];
      assert y.algorithms[..i + 1][..i] == y.algorithms[..i];
      if item.kdf !in KDFS {
        UnknownStays(y.algorithms, i + 1);
        return Rejected(InvalidKdf(item.kdf));
      }
      if item.aead !in AEADS {
        UnknownStays(y.algorithms, i + 1);
        return Rejected(InvalidAead(item.aead));
      }
      list[i] := Algorithm(KDFS[item.kdf], AEADS[item.aead]);
    }
    assert y.algorithms[..n] == y.algorithms;
    return Config(KeyConfig(y.keyId, KEMS[y.kem], key.value, list[..]));
  }

  // Round trips.

  predicate AllListed(algorithms: seq<Algorithm>) {
    forall i :: 0 <= i < |algorithms| ==> Listed(KDFS, algorithms[i].kdf) && Listed(AEADS, algorithms[i].aead)
  }

  lemma {:induction false} AlgorithmsRoundTrip(algorithms: seq<Algorithm>, ys: seq<YamlAlgorithm>)
    requires |ys| == |algorithms| && forall i :: 0 <= i < |ys| ==> IsNamed(algorithms[i], ys[i])
    ensures DecodeAlgorithms(ys) == Algorithms(algorithms) <==> AllListed(algorithms)
    ensures AllListed(algorithms) <==> DecodeAlgorithms(ys).Algorithms?
  {
    if ys != [] {
      var k := |ys| - 1;
      AlgorithmsRoundTrip(algorithms[..k], ys[..k]);
      assert algorithms == algorithms[..k] + [algorithms[k]];
      assert IsNamed(algorithms[k], ys[k]);
    }
  }

  /** Whatever order the names were found in, a configuration comes back exactly, order included, if and only if its
      identifiers all have names and its key is a key of its KEM; a KEM without a name makes the reader panic. */
  lemma ConfigRoundTripIff(validKey: (int, seq<byte>) -> bool, kc: KeyConfig, y: Yaml)
    requires Marshals(kc, y)
    ensures Unmarshal(validKey, y) == Config(kc) <==>
            Listed(KEMS, kc.kem) && kc.publicKey != [] && validKey(kc.kem, kc.publicKey) && AllListed(kc.algorithms)
    ensures Unmarshal(validKey, y) == Panicked <==> !Listed(KEMS, kc.kem) && kc.publicKey != []
  {
    HexRoundTrip(kc.publicKey);
    AlgorithmsRoundTrip(kc.algorithms, y.algorithms);
    assert "" !in KEMS;
  }

  predicate Injective(table: Table) {
    forall a, b :: a in table && b in table && table[a] == table[b] ==> a == b
  }

  lemma KemsInjective()
    ensures Injective(KEMS)
  {
  }

  lemma SmallTablesInjective()
    ensures Injective(KDFS) && Injective(AEADS)
  {
  }

  lemma {:induction false} AlgorithmsRenamed(ys: seq<YamlAlgorithm>, i: nat)
    requires DecodeAlgorithms(ys).Algorithms? && i < |ys|
    ensures var list := DecodeAlgorithms(ys).list;
            && |list| == |ys| && ys[i].kdf in KDFS && ys[i].aead in AEADS
            && list[i] == Algorithm(KDFS[ys[i].kdf], AEADS[ys[i].aead])
  {
    var k := |ys| - 1;
    if k > 0 {
      AlgorithmsRenamed(ys[..k], if i < k then i else 0);
    }
  }

  // What the names stand for: the identifiers of section 7 of RFC 9180, and the two later KEMs.

  predicate KemHas(name: string, id: int) {
    || (name == "P256_HKDF_SHA256" && id == 16) || (name == "P384_HKDF_SHA384" && id == 17)
    || (name == "P521_HKDF_SHA512" && id == 18) || (name == "X25519_HKDF_SHA256" && id == 32)
    || (name == "X448_HKDF_SHA512" && id == 33) || (name == "X25519_KYBER768_DRAFT00" && id == 48)
    || (name == "KEM_XWING" && id == 25722)
  }

  predicate KdfHas(name: string, id: int) {
    (name == "SHA256" && id == 1) || (name == "SHA384" && id == 2) || (name == "SHA512" && id == 3)
  }

  predicate AeadHas(name: string, id: int) {
    (name == "AES128GCM" && id == 1) || (name == "AES256GCM" && id == 2) || (name == "ChaCha20Poly1305" && id == 3)
  }

  lemma KemTable(name: string, id: int)
    ensures name in KEMS && KEMS[name] == id <==> KemHas(name, id)
  {
  }

  lemma KdfTable(name: string, id: int)
    ensures name in KDFS && KDFS[name] == id <==> KdfHas(name, id)
  {
  }

  lemma AeadTable(name: string, id: int)
    ensures name in AEADS && AEADS[name] == id <==> AeadHas(name, id)
  {
  }

  /** The only name that marshalling may write for an identifier; empty when it has none. */
  ghost predicate KemNamed(id: int, name: string) {
    KemHas(name, id) || (name == "" && forall n :: !KemHas(n, id))
  }

  ghost predicate AlgorithmNamed(a: Algorithm, y: YamlAlgorithm) {
    && (KdfHas(y.kdf, a.kdf) || (y.kdf == "" && forall n :: !KdfHas(n, a.kdf)))
    && (AeadHas(y.aead, a.aead) || (y.aead == "" && forall n :: !AeadHas(n, a.aead)))
  }

  lemma KemNames(id: int, name: string)
    ensures IsName(KEMS, id, name) <==> KemNamed(id, name)
  {
    forall n ensures n in KEMS && KEMS[n] == id <==> KemHas(n, id) { KemTable(n, id); }
  }

  lemma KdfNames(id: int, name: string)
    ensures IsName(KDFS, id, name) <==> KdfHas(name, id) || (name == "" && forall n :: !KdfHas(n, id))
  {
    forall n ensures n in KDFS && KDFS[n] == id <==> KdfHas(n, id) { KdfTable(n, id); }
  }

  lemma AeadNames(id: int, name: string)
    ensures IsName(AEADS, id, name) <==> AeadHas(name, id) || (name == "" && forall n :: !AeadHas(n, id))
  {
    forall n ensures n in AEADS && AEADS[n] == id <==> AeadHas(n, id) { AeadTable(n, id); }
  }

  /** What marshalling writes, in terms of the registered identifiers. */
  lemma MarshalMeaning(kc: KeyConfig, y: Yaml)
    ensures Marshals(kc, y) <==>
            && y.keyId == kc.keyId && KemNamed(kc.kem, y.kem) && y.publicKey == HexEncode(kc.publicKey)
            && |y.algorithms| == |kc.algorithms|
            && forall i :: 0 <= i < |y.algorithms| ==> AlgorithmNamed(kc.algorithms[i], y.algorithms[i])
  {
    KemNames(kc.kem, y.kem);
    if |y.algorithms| == |kc.algorithms| {
      forall i | 0 <= i < |y.algorithms|
        ensures IsNamed(kc.algorithms[i], y.algorithms[i]) <==> AlgorithmNamed(kc.algorithms[i], y.algorithms[i])
      {
        KdfNames(kc.algorithms[i].kdf, y.algorithms[i].kdf);
        AeadNames(kc.algorithms[i].aead, y.algorithms[i].aead);
      }
    }
  }

  predicate Reads(y: YamlAlgorithm, a: Algorithm) {
    KdfHas(y.kdf, a.kdf) && AeadHas(y.aead, a.aead)
  }

  lemma AlgorithmReads(y: YamlAlgorithm, list: seq<Algorithm>)
    ensures DecodeAlgorithm(y) == Algorithms(list) <==> |list| == 1 && Reads(y, list[0])
  {
    if y.kdf in KDFS && y.aead in AEADS {
      KdfTable(y.kdf, KDFS[y.kdf]);
      AeadTable(y.aead, AEADS[y.aead]);
    } else if list != [] {
      KdfTable(y.kdf, list[0].kdf);
      AeadTable(y.aead, list[0].aead);
    }
  }

  lemma {:induction false} AlgorithmsRead(ys: seq<YamlAlgorithm>, list: seq<Algorithm>)
    ensures DecodeAlgorithms(ys) == Algorithms(list) <==>
            |list| == |ys| && forall i :: 0 <= i < |ys| ==> Reads(ys[i], list[i])
  {
    if ys != [] && list != [] {
      var k, n := |ys| - 1, |list| - 1;
      AlgorithmsRead(ys[..k], list[..n]);
      AlgorithmReads(ys[k], [list[n]]);
      assert list == list[..n] + [list[n]];
    }
  }

  /** The configurations that unmarshalling yields, in the same terms. */
  lemma UnmarshalMeaning(validKey: (int, seq<byte>) -> bool, y: Yaml, kc: KeyConfig)
    ensures Unmarshal(validKey, y) == Config(kc) <==>
            && kc.keyId == y.keyId && KemHas(y.kem, kc.kem)
            && HexText(y.publicKey) && HexEncode(kc.publicKey) == ToLower(y.publicKey)
            && kc.publicKey != [] && validKey(kc.kem, kc.publicKey)
            && |kc.algorithms| == |y.algorithms|
            && forall i :: 0 <= i < |y.algorithms| ==> Reads(y.algorithms[i], kc.algorithms[i])
  {
    HexAccepts(y.publicKey);
    KemTable(y.kem, kc.kem);
    AlgorithmsRead(y.algorithms, kc.algorithms);
    if HexText(y.publicKey) {
      HexLowers(y.publicKey);
      if HexEncode(kc.publicKey) == ToLower(y.publicKey) {
        HexRoundTrip(kc.publicKey);
        HexRoundTrip(HexDecode(y.publicKey).value);
      }
    }
  }

  // How unmarshalling fails.

  predicate Known(y: YamlAlgorithm) {
    y.kdf in {"SHA256", "SHA384", "SHA512"} && y.aead in {"AES128GCM", "AES256GCM", "ChaCha20Poly1305"}
  }

  lemma {:induction false} AllKnown(ys: seq<YamlAlgorithm>)
    requires forall i :: 0 <= i < |ys| ==> Known(ys[i])
    ensures DecodeAlgorithms(ys).Algorithms?
  {
    if ys != [] {
      AllKnown(ys[..|ys| - 1]);
    }
  }

  /** Of two unknown names the KDF's is reported. */
  function Complaint(y: YamlAlgorithm): Failure {
    if y.kdf in {"SHA256", "SHA384", "SHA512"} then InvalidAead(y.aead) else InvalidKdf(y.kdf)
  }

  lemma OneUnknown(y: YamlAlgorithm)
    requires !Known(y)
    ensures DecodeAlgorithm(y) == Unknown(Complaint(y))
  {
  }

  lemma {:induction false} FailsAt(ys: seq<YamlAlgorithm>, i: nat, why: Failure)
    requires i < |ys| && DecodeAlgorithms(ys[..i]).Algorithms? && DecodeAlgorithm(ys[i]) == Unknown(why)
    ensures DecodeAlgorithms(ys) == Unknown(why)
  {
    if i < |ys| - 1 {
      var front := ys[..|ys| - 1];
      assert front[..i] == ys[..i];
      FailsAt(front, i, why);
    }
  }

  /** The first algorithm with an unknown name decides. */
  lemma FirstUnknown(ys: seq<YamlAlgorithm>, i: nat)
    requires i < |ys| && !Known(ys[i]) && forall j :: 0 <= j < i ==> Known(ys[j])
    ensures DecodeAlgorithms(ys) == Unknown(Complaint(ys[i]))
  {
    AllKnown(ys[..i]);
    OneUnknown(ys[i]);
    FailsAt(ys, i, Complaint(ys[i]));
  }

  /** The failures, in the order in which they are looked for. */
  lemma UnmarshalFailures(validKey: (int, seq<byte>) -> bool, y: Yaml)
    ensures Unmarshal(validKey, y) == Rejected(BadHex) <==> !HexText(y.publicKey)
    ensures Unmarshal(validKey, y) == Rejected(EmptyKey) <==> y.publicKey == ""
    ensures Unmarshal(validKey, y) == Panicked <==>
            HexText(y.publicKey) && y.publicKey != "" && forall id :: !KemHas(y.kem, id)
    ensures Unmarshal(validKey, y) == Rejected(BadKey) <==>
            && HexText(y.publicKey) && y.publicKey != ""
            && exists id, key :: KemHas(y.kem, id) && HexEncode(key) == ToLower(y.publicKey) && !validKey(id, key)
  {
    HexAccepts(y.publicKey);
    if y.kem in KEMS {
      KemTable(y.kem, KEMS[y.kem]);
    }
    forall id ensures KemHas(y.kem, id) <==> y.kem in KEMS && KEMS[y.kem] == id { KemTable(y.kem, id); }
    if HexText(y.publicKey) {
      HexLowers(y.publicKey);
      var bytes := HexDecode(y.publicKey).value;
      forall key | HexEncode(key) == ToLower(y.publicKey) ensures key == bytes {
        HexRoundTrip(key);
        HexRoundTrip(bytes);
      }
      NoAlgorithmFailsKey(y.algorithms);
    }
  }

  lemma {:induction false} NoAlgorithmFailsKey(ys: seq<YamlAlgorithm>)
    ensures DecodeAlgorithms(ys).Unknown? ==> DecodeAlgorithms(ys).why.InvalidKdf? || DecodeAlgorithms(ys).why.InvalidAead?
  {
    if ys != [] {
      NoAlgorithmFailsKey(ys[..|ys| - 1]);
    }
  }

  /** With a good key the outcome is that of the first algorithm that is not known. */
  lemma UnmarshalUnknown(validKey: (int, seq<byte>) -> bool, y: Yaml, key: seq<byte>, id: int, i: nat)
    requires HexDecode(y.publicKey) == Some(key) && key != [] && KemHas(y.kem, id) && validKey(id, key)
    requires i < |y.algorithms| && !Known(y.algorithms[i]) && forall j :: 0 <= j < i ==> Known(y.algorithms[j])
    ensures Unmarshal(validKey, y) == Rejected(Complaint(y.algorithms[i]))
  {
    KemTable(y.kem, id);
    FirstUnknown(y.algorithms, i);
  }

  /** The key of the repository's development set-up, whatever its bytes, read and written. */
  lemma TestKey(validKey: (int, seq<byte>) -> bool, key: seq<byte>, y: Yaml)
    requires key != [] && validKey(16, key)
    ensures var kc := KeyConfig(1, 16, key, [Algorithm(1, 1)]);
            var record := Yaml(1, "P256_HKDF_SHA256", HexEncode(key), [YamlAlgorithm("SHA256", "AES128GCM")]);
            Unmarshal(validKey, record) == Config(kc) && (Marshals(kc, y) <==> y == record)
  {
    var kc := KeyConfig(1, 16, key, [Algorithm(1, 1)]);
    var record := Yaml(1, "P256_HKDF_SHA256", HexEncode(key), [YamlAlgorithm("SHA256", "AES128GCM")]);
    MarshalMeaning(kc, y);
    MarshalMeaning(kc, record);
    ConfigRoundTripIff(validKey, kc, record);
    assert KemHas("P256_HKDF_SHA256", 16) && KdfHas("SHA256", 1) && AeadHas("AES128GCM", 1);
  }

  /** A record that was accepted is written back as it was, but for the case of its hex digits. */
  lemma RecordRoundTrip(validKey: (int, seq<byte>) -> bool, y: Yaml, y2: Yaml)
    requires Unmarshal(validKey, y).Config? && Marshals(Unmarshal(validKey, y).kc, y2)
    ensures y2 == y.(publicKey := ToLower(y.publicKey))
  {
    HexLowers(y.publicKey);
    KemsInjective();
    SmallTablesInjective();
    var kc := Unmarshal(validKey, y).kc;
    assert Listed(KEMS, kc.kem);
    assert |kc.algorithms| == |y.algorithms| by {
      if y.algorithms != [] { AlgorithmsRenamed(y.algorithms, 0); }
    }
    forall i | 0 <= i < |y.algorithms| ensures y2.algorithms[i] == y.algorithms[i] {
      AlgorithmsRenamed(y.algorithms, i);
      assert IsNamed(kc.algorithms[i], y2.algorithms[i]);
      assert Listed(KDFS, kc.algorithms[i].kdf) && Listed(AEADS, kc.algorithms[i].aead);
    }
  }
}
