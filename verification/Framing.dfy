/**
 * The length-prefixed frame in which an index is stored: the length of the
 * configuration as a little-endian 32-bit word, the configuration, then the
 * vectors in the same way. The two payloads are opaque byte strings; their
 * JSON decoders are parameters.
 */
module Framing {
  import opened Wrappers

  newtype Byte = x: int | 0 <= x < 256

  type Bytes = seq<Byte>

  const WORD := 0x1_0000_0000

  /** `(n as u32).to_le_bytes()`: the length is truncated to 32 bits. */
  function LittleEndian(n: nat): (r: Bytes)
    ensures |r| == 4
  {
    [(n % 256) as Byte, (n / 256 % 256) as Byte, (n / 256 / 256 % 256) as Byte, (n / 256 / 256 / 256 % 256) as Byte]
  }

  function FromLittleEndian(b: Bytes): nat
    requires |b| == 4
  {
    b[0] as nat + 256 * b[1] as nat + 65536 * b[2] as nat + 16777216 * b[3] as nat
  }

  lemma WordRoundTrip(n: nat)
    ensures FromLittleEndian(LittleEndian(n)) == n % WORD
  {
    var a, b, c := n / 256, n / 256 / 256, n / 256 / 256 / 256;
    assert n == n % 256 + 256 * a && a == a % 256 + 256 * b && b == b % 256 + 256 * c && c == c % 256 + 256 * (c / 256);
  }

  lemma WordIsDetermined(b: Bytes)
    requires |b| == 4
    ensures FromLittleEndian(b) < WORD && LittleEndian(FromLittleEndian(b)) == b
  {
    var n := FromLittleEndian(b);
    assert n / 256 == b[1] as nat + 256 * b[2] as nat + 65536 * b[3] as nat;
    assert n / 256 / 256 == b[2] as nat + 256 * b[3] as nat;
  }

  function Frame(config: Bytes, vectors: Bytes): Bytes {
    LittleEndian(|config|) + config + LittleEndian(|vectors|) + vectors
  }

  method ToBytes(config: Bytes, vectors: Bytes) returns (output: Bytes)
    ensures output == Frame(config, vectors)
  {
    output := [];
    output := output + LittleEndian(|config|);
    output := output + config;
    output := output + LittleEndian(|vectors|);
    output := output + vectors;
  }

  datatype FrameError =
    | ShortConfigLength | TruncatedConfig | BadConfig
    | ShortVectorsLength | TruncatedVectors | BadVectors

  /** One length-prefixed payload at `offset`. */
  predicate Holds(data: Bytes, offset: nat, payload: Bytes) {
    && offset + 4 + |payload| <= |data|
    && data[offset..offset + 4] == LittleEndian(|payload|)
    && data[offset + 4..offset + 4 + |payload|] == payload
    && |payload| < WORD
  }

  /** The data start with the frame of two payloads. */
  predicate StartsWithFrame(data: Bytes, config: Bytes, vectors: Bytes) {
    Holds(data, 0, config) && Holds(data, 4 + |config|, vectors)
  }

  /** What `from_bytes` makes of the data, errors in the order of the checks. */
  function Restored<C, V>(data: Bytes, readConfig: Bytes -> Option<C>, readVectors: Bytes -> Option<V>)
    : Result<(C, V), FrameError>
  {
    if |data| < 4 then Failure(ShortConfigLength)
    else
      var offset := 4 + FromLittleEndian(data[..4]);
      if |data| < offset then Failure(TruncatedConfig)
      else match readConfig(data[4..offset])
        case None => Failure(BadConfig)
        case Some(config) =>
          if |data| < offset + 4 then Failure(ShortVectorsLength)
          else
            var end := offset + 4 + FromLittleEndian(data[offset..offset + 4]);
            if |data| < end then Failure(TruncatedVectors)
            else match readVectors(data[offset + 4..end])
              case None => Failure(BadVectors)
              case Some(vectors) => Success((config, vectors))
  }

  method FromBytes<C, V>(data: Bytes, readConfig: Bytes -> Option<C>, readVectors: Bytes -> Option<V>)
    returns (r: Result<(C, V), FrameError>)
    ensures r == Restored(data, readConfig, readVectors)
  {
    var offset := 0;
    if |data| < 4 {
      return Failure(ShortConfigLength);
    }
    var configLength := FromLittleEndian(data[0..4]);
    offset := offset + 4;
    if |data| < 4 + configLength {
      return Failure(TruncatedConfig);
    }
    var config := readConfig(data[4..4 + configLength]);
    if config.None? {
      return Failure(BadConfig);
    }
    offset := offset + configLength;
    if |data| < offset + 4 {
      return Failure(ShortVectorsLength);
    }
    var vectorsLength := FromLittleEndian(data[offset..offset + 4]);
    offset := offset + 4;
    if |data| < offset + vectorsLength {
      return Failure(TruncatedVectors);
    }
    var vectors := readVectors(data[offset..offset + vectorsLength]);
    if vectors.None? {
      return Failure(BadVectors);
    }
    r := Success((config.value, vectors.value));
  }

  // ---- Which data are accepted ----

  lemma HeldPayload(data: Bytes, offset: nat, payload: Bytes)
    requires Holds(data, offset, payload)
    ensures FromLittleEndian(data[offset..offset + 4]) == |payload|
  {
    WordRoundTrip(|payload|);
  }

  lemma ReadPayload(data: Bytes, offset: nat)
    requires offset + 4 <= |data| && offset + 4 + FromLittleEndian(data[offset..offset + 4]) <= |data|
    ensures Holds(data, offset, data[offset + 4..offset + 4 + FromLittleEndian(data[offset..offset + 4])])
  {
    WordIsDetermined(data[offset..offset + 4]);
  }

  /** Data that start with a frame decode to its two payloads, whatever follows the frame. */
  lemma {:induction false} FrameIsRead<C, V>(data: Bytes, config: Bytes, vectors: Bytes,
                          readConfig: Bytes -> Option<C>, readVectors: Bytes -> Option<V>)
    requires StartsWithFrame(data, config, vectors)
    ensures Restored(data, readConfig, readVectors) ==
            match readConfig(config)
            case None => Failure(BadConfig)
            case Some(c) =>
              match readVectors(vectors)
              case None => Failure(BadVectors)
              case Some(v) => Success((c, v))
  {
    HeldPayload(data, 0, config);
    HeldPayload(data, 4 + |config|, vectors);
    assert data[..4] == data[0..4];
  }

  /** Only data that start with a frame whose payloads decode are accepted. */
  lemma {:induction false} AcceptedIsFrame<C, V>(data: Bytes, readConfig: Bytes -> Option<C>,
                                               readVectors: Bytes -> Option<V>)
    returns (config: Bytes, vectors: Bytes)
    requires Restored(data, readConfig, readVectors).Success?
    ensures StartsWithFrame(data, config, vectors)
    ensures readConfig(config) == Some(Restored(data, readConfig, readVectors).value.0)
    ensures readVectors(vectors) == Some(Restored(data, readConfig, readVectors).value.1)
  {
    assert data[..4] == data[0..4];
    ReadPayload(data, 0);
    config := data[4..4 + FromLittleEndian(data[..4])];
    var offset := 4 + |config|;
    ReadPayload(data, offset);
    vectors := data[offset + 4..offset + 4 + FromLittleEndian(data[offset..offset + 4])];
  }

  lemma FrameStartsWithItself(config: Bytes, vectors: Bytes, rest: Bytes)
    requires |config| < WORD && |vectors| < WORD
    ensures StartsWithFrame(Frame(config, vectors) + rest, config, vectors)
  {
    var data := Frame(config, vectors) + rest;
    var offset := 4 + |config|;
    assert data == LittleEndian(|config|) + (config + LittleEndian(|vectors|) + vectors + rest);
    assert data == (LittleEndian(|config|) + config) + LittleEndian(|vectors|) + (vectors + rest);
    assert data[offset + 4..offset + 4 + |vectors|] == vectors;
  }

  lemma {:induction false} FramedIsPrefix(data: Bytes, config: Bytes, vectors: Bytes)
    ensures StartsWithFrame(data, config, vectors)
       <==> |config| < WORD && |vectors| < WORD && Frame(config, vectors) <= data
  {
    var offset, end := 4 + |config|, |Frame(config, vectors)|;
    if StartsWithFrame(data, config, vectors) {
      assert data[..end] == data[0..4] + data[4..offset] + data[offset..offset + 4] + data[offset + 4..end];
    }
    if |config| < WORD && |vectors| < WORD && Frame(config, vectors) <= data {
      FrameStartsWithItself(config, vectors, data[end..]);
      assert data == Frame(config, vectors) + data[end..];
    }
  }

  /**
   * Round trip: a frame decodes to the payloads it was made from exactly when
   * both lengths fit in 32 bits.
   */
  lemma {:induction false} FrameRoundTrip(config: Bytes, vectors: Bytes)
    ensures Restored(Frame(config, vectors), b => Some(b), b => Some(b)) == Success((config, vectors))
       <==> |config| < WORD && |vectors| < WORD
  {
    var read: Bytes -> Option<Bytes> := b => Some(b);
    var data := Frame(config, vectors);
    if |config| < WORD && |vectors| < WORD {
      FrameStartsWithItself(config, vectors, []);
      assert data + [] == data;
      FrameIsRead(data, config, vectors, read, read);
    }
    if Restored(data, read, read) == Success((config, vectors)) {
      var c, v := AcceptedIsFrame(data, read, read);
    }
  }

  /** With decoders that undo the encoders, storing an index and restoring it gives it back. */
  lemma {:induction false} IndexRoundTrip<C, V>(config: C, vectors: V,
                             writeConfig: C -> Bytes, writeVectors: V -> Bytes,
                             readConfig: Bytes -> Option<C>, readVectors: Bytes -> Option<V>)
    requires readConfig(writeConfig(config)) == Some(config) && readVectors(writeVectors(vectors)) == Some(vectors)
    requires |writeConfig(config)| < WORD && |writeVectors(vectors)| < WORD
    ensures Restored(Frame(writeConfig(config), writeVectors(vectors)), readConfig, readVectors)
         == Success((config, vectors))
  {
    var c, v := writeConfig(config), writeVectors(vectors);
    FrameStartsWithItself(c, v, []);
    assert Frame(c, v) + [] == Frame(c, v);
    FrameIsRead(Frame(c, v), c, v, readConfig, readVectors);
  }

  lemma FramesAreDetermined(data: Bytes, c1: Bytes, v1: Bytes, c2: Bytes, v2: Bytes)
    requires StartsWithFrame(data, c1, v1) && StartsWithFrame(data, c2, v2)
    ensures c1 == c2 && v1 == v2
  {
    HeldPayload(data, 0, c1);
    HeldPayload(data, 0, c2);
    HeldPayload(data, 4 + |c1|, v1);
    HeldPayload(data, 4 + |c1|, v2);
  }

  /**
   * Cutting data short: a prefix that loses part of the frame is rejected, one
   * that keeps the frame decodes as before.
   */
  lemma {:induction false} PrefixIsRejected<C, V>(data: Bytes, config: Bytes, vectors: Bytes, k: nat,
                               readConfig: Bytes -> Option<C>, readVectors: Bytes -> Option<V>)
    requires StartsWithFrame(data, config, vectors) && k <= |data|
    ensures k < |Frame(config, vectors)| ==> Restored(data[..k], readConfig, readVectors).Failure?
    ensures k >= |Frame(config, vectors)| ==>
              Restored(data[..k], readConfig, readVectors) == Restored(data, readConfig, readVectors)
  {
    var cut := data[..k];
    if k < |Frame(config, vectors)| {
      if Restored(cut, readConfig, readVectors).Success? {
        var c, v := AcceptedIsFrame(cut, readConfig, readVectors);
        PrefixHolds(data, k, 0, c);
        PrefixHolds(data, k, 4 + |c|, v);
        FramesAreDetermined(data, config, vectors, c, v);
        assert false;
      }
    } else {
      PrefixHolds(data, k, 0, config);
      PrefixHolds(data, k, 4 + |config|, vectors);
      FrameIsRead(data, config, vectors, readConfig, readVectors);
      FrameIsRead(cut, config, vectors, readConfig, readVectors);
    }
  }

  lemma PrefixHolds(data: Bytes, k: nat, offset: nat, payload: Bytes)
    requires k <= |data|
    ensures Holds(data[..k], offset, payload) <==> Holds(data, offset, payload) && offset + 4 + |payload| <= k
  {
    if offset + 4 + |payload| <= k {
      assert data[..k][offset..offset + 4] == data[offset..offset + 4];
      assert data[..k][offset + 4..offset + 4 + |payload|] == data[offset + 4..offset + 4 + |payload|];
    }
  }
}
