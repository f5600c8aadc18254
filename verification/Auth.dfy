/**
 The signed and encrypted authorization container and the keychain. Hashes, key
 derivation, the block cipher and the packing of payloads are functions of which
 only the laws stated below are used.
 */
module Auth {
  import opened Arith
  import opened Wrappers
  import opened Bytes
  import opened Digits
  import Base64

  const MAX_MSG_SIZE := 4096
  const SALT_SIZE := 8
  const BLOCK_SIZE := 16
  const BAR: byte := 124

  type Key = seq<byte>

  /** What a payload may hold; numbers are mantissa and exponent. */
  datatype Value =
    | Null | Flag(flag: bool) | Number(mantissa: int, exponent: int) | Text(text: string) | List(items: seq<Value>)

  type Payload = map<string, Value>

  datatype Crypto = Crypto(
    size: nat,
    mac: (Key, seq<byte>) -> seq<byte>,
    derive: (Key, seq<byte>) -> Key,
    keystream: (Key, seq<byte>, nat) -> byte,
    pack: Payload -> seq<byte>,
    unpack: seq<byte> -> Option<Payload>)
  {
    /** The payload survives packing, and its packed form is not empty. */
    predicate Packs(p: Payload) { pack(p) != [] && unpack(pack(p)) == Some(p) }
  }

  datatype Container = Container(timestamp: int64, salt: seq<byte>, signature: seq<byte>, rawMsg: seq<byte>)

  // --- signing -------------------------------------------------------------------

  function TimestampBytes(t: int64): seq<byte> {
    FormatIntAscii(t);
    FromText(FormatInt(t))
  }

  lemma FormatIntAscii(i: int)
    ensures forall k :: 0 <= k < |FormatInt(i)| ==> FormatInt(i)[k] as int < 256 && FormatInt(i)[k] != '|'
  {
    FormatIntValue(i);
  }

  function Message(c: Container): seq<byte> {
    TimestampBytes(c.timestamp) + c.salt + c.rawMsg
  }

  lemma TimestampDetermined(t: int64, u: int64)
    requires TimestampBytes(t) == TimestampBytes(u)
    ensures t == u
  {
    FormatIntAscii(t);
    FormatIntAscii(u);
    TextRoundTrip(FormatInt(t));
    TextRoundTrip(FormatInt(u));
    FormatIntValue(t);
    FormatIntValue(u);
  }

  /**
   What is signed has no delimiter behind the timestamp. Two containers have one
   message exactly when the longer timestamp continues the shorter one with the
   bytes that follow it.
   */
  lemma SameMessage(c: Container, d: Container)
    requires |TimestampBytes(c.timestamp)| <= |TimestampBytes(d.timestamp)|
    ensures var t, u := TimestampBytes(c.timestamp), TimestampBytes(d.timestamp);
            var k, rest := |u| - |t|, c.salt + c.rawMsg;
            Message(c) == Message(d) <==> k <= |rest| && u == t + rest[..k] && d.salt + d.rawMsg == rest[k..]
  {
    Shifted(TimestampBytes(c.timestamp), c.salt + c.rawMsg, TimestampBytes(d.timestamp), d.salt + d.rawMsg);
    assert Message(c) == TimestampBytes(c.timestamp) + (c.salt + c.rawMsg);
    assert Message(d) == TimestampBytes(d.timestamp) + (d.salt + d.rawMsg);
  }

  lemma Shifted(t: seq<byte>, rest: seq<byte>, u: seq<byte>, tail: seq<byte>)
    requires |t| <= |u|
    ensures var k := |u| - |t|;
            t + rest == u + tail <==> k <= |rest| && u == t + rest[..k] && tail == rest[k..]
  {
    var k := |u| - |t|;
    if t + rest == u + tail {
      assert u == (t + rest)[..|u|];
      assert tail == (t + rest)[|u|..];
    }
    if k <= |rest| {
      assert t + rest == (t + rest[..k]) + rest[k..];
    }
  }

  /** Among containers whose timestamps are equally long the message determines every field. */
  lemma MessageDetermines(c: Container, d: Container)
    requires |c.salt| == |d.salt|
    requires |TimestampBytes(c.timestamp)| == |TimestampBytes(d.timestamp)|
    ensures Message(c) == Message(d) <==> c.timestamp == d.timestamp && c.salt == d.salt && c.rawMsg == d.rawMsg
  {
    SameMessage(c, d);
    if Message(c) == Message(d) {
      assert TimestampBytes(d.timestamp) == TimestampBytes(c.timestamp) + [];
      TimestampDetermined(c.timestamp, d.timestamp);
      var rest := c.salt + c.rawMsg;
      assert rest[..|c.salt|] == c.salt && rest[|c.salt|..] == c.rawMsg;
      assert (d.salt + d.rawMsg)[..|d.salt|] == d.salt && (d.salt + d.rawMsg)[|d.salt|..] == d.rawMsg;
    }
  }

  lemma OneAndTwelve()
    ensures TimestampBytes(1) == [49] && TimestampBytes(12) == [49] + [50]
  {
    assert FormatNat(1) == "1";
    assert FormatNat(12) == FormatNat(1) + "2";
  }

  /** Of different lengths they may have one message, and with it one signature: the timestamp is left open. */
  lemma MessageLeavesTimestampOpen(crypto: Crypto, key: Key, tail: seq<byte>, signature: seq<byte>)
    requires |tail| >= SALT_SIZE
    ensures var salted := [50] + tail;
            var c := Container(1, salted[..SALT_SIZE], signature, salted[SALT_SIZE..]);
            var d := Container(12, tail[..SALT_SIZE], signature, tail[SALT_SIZE..]);
            Message(c) == Message(d) && (IsAuthentic(crypto, c, key) <==> IsAuthentic(crypto, d, key))
  {
    var salted := [50] + tail;
    var c := Container(1, salted[..SALT_SIZE], signature, salted[SALT_SIZE..]);
    var d := Container(12, tail[..SALT_SIZE], signature, tail[SALT_SIZE..]);
    OneAndTwelve();
    assert c.salt + c.rawMsg == salted && d.salt + d.rawMsg == tail;
    assert salted[..1] == [50] && salted[1..] == tail;
    SameMessage(c, d);
  }

  predicate IsAuthentic(crypto: Crypto, c: Container, key: Key) {
    c.signature == crypto.mac(key, Message(c))
  }

  // --- encryption ------------------------------------------------------------------

  function XorByte(a: byte, b: byte): byte {
    assert Pow(2, 8) == 256 by { PowOfTwo8(); }
    XorRange(a, b, 8, 256);
    Xor(a, b)
  }

  lemma PowOfTwo8()
    ensures Pow(2, 8) == 256
  {
    assert Pow(2, 4) == 16;
    PowAdd(2, 4, 4);
  }

  /** Counter mode: the value combined with the key stream, position by position. */
  function Ctr(crypto: Crypto, key: Key, iv: seq<byte>, value: seq<byte>): (r: seq<byte>)
    ensures |r| == |value|
  {
    seq<byte>(|value|, i requires 0 <= i < |value| => XorByte(value[i], crypto.keystream(key, iv, i)))
  }

  lemma CtrTwice(crypto: Crypto, key: Key, iv: seq<byte>, value: seq<byte>)
    ensures Ctr(crypto, key, iv, Ctr(crypto, key, iv, value)) == value
  {
    var once := Ctr(crypto, key, iv, value);
    forall i | 0 <= i < |value| ensures Ctr(crypto, key, iv, once)[i] == value[i] {
      XorInvolution(value[i], crypto.keystream(key, iv, i));
    }
  }

  function Decrypt(crypto: Crypto, key: Key, value: seq<byte>): Option<seq<byte>> {
    if |value| <= BLOCK_SIZE then None else Some(Ctr(crypto, key, value[..BLOCK_SIZE], value[BLOCK_SIZE..]))
  }

  /** The container that `Encode` makes. */
  function Sealed(crypto: Crypto, key: Key, timestamp: int64, salt: seq<byte>, iv: seq<byte>, payload: Payload)
    : Container
  {
    var rawMsg := iv + Ctr(crypto, crypto.derive(key, salt), iv, crypto.pack(payload));
    var unsigned := Container(timestamp, salt, [], rawMsg);
    unsigned.(signature := crypto.mac(key, Message(unsigned)))
  }

  /**
   The bytes of a sealed container: the initialisation vector, then each packed
   byte combined with its byte of the key stream; and what is signed.
   */
  lemma SealedBytes(crypto: Crypto, key: Key, timestamp: int64, salt: seq<byte>, iv: seq<byte>, payload: Payload)
    requires |iv| == BLOCK_SIZE
    ensures var c, packed := Sealed(crypto, key, timestamp, salt, iv, payload), crypto.pack(payload);
            && c.timestamp == timestamp && c.salt == salt
            && |c.rawMsg| == 16 + |packed| && c.rawMsg[..16] == iv
            && (forall i :: 0 <= i < |packed| ==>
                  c.rawMsg[16 + i] == Xor(packed[i], crypto.keystream(crypto.derive(key, salt), iv, i)))
            && c.signature == crypto.mac(key, TimestampBytes(timestamp) + salt + c.rawMsg)
  {
  }

  function Opened(crypto: Crypto, key: Key, c: Container): Option<Payload> {
    match Decrypt(crypto, crypto.derive(key, c.salt), c.rawMsg)
    case None => None
    case Some(packed) => crypto.unpack(packed)
  }

  lemma OpenSealed(crypto: Crypto, key: Key, timestamp: int64, salt: seq<byte>, iv: seq<byte>, payload: Payload)
    requires crypto.Packs(payload) && |iv| == BLOCK_SIZE
    ensures Opened(crypto, key, Sealed(crypto, key, timestamp, salt, iv, payload)) == Some(payload)
    ensures IsAuthentic(crypto, Sealed(crypto, key, timestamp, salt, iv, payload), key)
  {
    var blockKey, packed := crypto.derive(key, salt), crypto.pack(payload);
    var rawMsg := iv + Ctr(crypto, blockKey, iv, packed);
    CtrTwice(crypto, blockKey, iv, packed);
    assert rawMsg[..BLOCK_SIZE] == iv && rawMsg[BLOCK_SIZE..] == Ctr(crypto, blockKey, iv, packed);
  }

  // --- the serialized form ---------------------------------------------------------

  function Serialized(c: Container): seq<byte> {
    TimestampBytes(c.timestamp) + [BAR] + c.salt + c.signature + c.rawMsg
  }

  datatype ReadError = NoDelimiter | BadTimestamp | EndOfData | Corrupt

  type pos = n: int | n > 0 witness 1

  /** How much one `Read` moves when n bytes are at hand: no more than is wanted or left. */
  function Moved(n: pos, wanted: nat, left: nat): (k: nat)
    ensures k <= wanted && k <= left
  {
    if n <= wanted && n <= left then n else if wanted <= left then wanted else left
  }

  /** One `Read` into a buffer: fails only at the end, and leaves what it does not fill. */
  function ReadInto(buffer: seq<byte>, data: seq<byte>, n: pos): Option<(seq<byte>, seq<byte>)> {
    if data == [] && buffer != [] then None
    else
      var k := Moved(n, |buffer|, |data|);
      Some((data[..k] + buffer[k..], data[k..]))
  }

  /**
   What a read does to its buffer: some bytes of the data come first, as many as
   are at hand, wanted and left, and the buffer keeps the rest of its own.
   */
  lemma OneRead(buffer: seq<byte>, data: seq<byte>, n: pos)
    ensures ReadInto(buffer, data, n).None? <==> data == [] && buffer != []
    ensures ReadInto(buffer, data, n).Some? ==>
              var (filled, rest) := ReadInto(buffer, data, n).value; var k := |data| - |rest|;
              && k <= n && k <= |buffer| && (k == n || k == |buffer| || k == |data|)
              && |filled| == |buffer| && filled[..k] == data[..k] && filled[k..] == buffer[k..] && rest == data[k..]
  {
    if !(data == [] && buffer != []) {
      var k := Moved(n, |buffer|, |data|);
      var filled := data[..k] + buffer[k..];
      assert filled[..k] == data[..k] && filled[k..] == buffer[k..];
    }
  }

  /** `strconv.ParseInt` on bad input: zero, or the nearest limit when out of range. */
  function Nearest(s: string): int64 {
    if !IsSignedDigits(s) then 0
    else if SignedValue(s) < -0x8000_0000_0000_0000 then -0x8000_0000_0000_0000
    else if SignedValue(s) >= 0x8000_0000_0000_0000 then 0x7fff_ffff_ffff_ffff
    else SignedValue(s)
  }

  /** No 64-bit number is nearer to what was written. */
  lemma NearestIsNearest(s: string, v: int64)
    ensures IsSignedDigits(s) ==> Abs(Nearest(s) - SignedValue(s)) <= Abs(v - SignedValue(s))
    ensures ParseInt(s).Some? ==> ParseInt(s) == Some(Nearest(s))
    ensures !IsSignedDigits(s) ==> Nearest(s) == 0
  {
  }

  predicate FirstBar(data: seq<byte>, i: nat) {
    i < |data| && data[i] == BAR && forall j :: 0 <= j < i ==> data[j] != BAR
  }

  lemma FirstBarOnly(data: seq<byte>, i: nat)
    requires FirstBar(data, i)
    ensures forall j :: FirstBar(data, j) ==> j == i
  {
  }

  /** What is read around the delimiter at i, with n1 and n2 bytes at hand for salt and signature. */
  function ReadFields(c: Container, data: seq<byte>, i: nat, n1: pos, n2: pos): (Container, Option<ReadError>)
    requires FirstBar(data, i)
  {
    var text := ToText(data[..i]);
    var c1 := c.(timestamp := Nearest(text));
    if ParseInt(text).None? then (c1, Some(BadTimestamp))
    else match ReadInto(c1.salt, data[i + 1..], n1)
      case None => (c1, Some(EndOfData))
      case Some((salt, rest)) =>
        match ReadInto(c1.signature, rest, n2)
        case None => (c1.(salt := salt), Some(EndOfData))
        case Some((signature, rawMsg)) => (c1.(salt := salt, signature := signature, rawMsg := rawMsg), None)
  }

  lemma ReadIntoFront(buffer: seq<byte>, front: seq<byte>, rest: seq<byte>, n: pos)
    requires |buffer| == |front| > 0
    ensures var r := ReadInto(buffer, front + rest, n);
            && r.Some? && |r.value.0| == |front|
            && (n >= |front| ==> r == Some((front, rest)))
            && (n < |front| ==> |r.value.1| > |rest|)
  {
    if n >= |front| {
      assert (front + rest)[..|front|] == front && (front + rest)[|front|..] == rest;
      assert front + buffer[|front|..] == front;
    }
  }

  /** The timestamp of a serialized container, and what follows it. */
  lemma SerializedParts(c: Container)
    ensures var ts, data := TimestampBytes(c.timestamp), Serialized(c);
            && FirstBar(data, |ts|) && data[..|ts|] == ts
            && data[|ts| + 1..] == c.salt + (c.signature + c.rawMsg)
  {
    FormatIntAscii(c.timestamp);
    assert Serialized(c) == TimestampBytes(c.timestamp) + ([BAR] + (c.salt + (c.signature + c.rawMsg)));
  }

  lemma TimestampRead(t: int64)
    ensures ParseInt(ToText(TimestampBytes(t))) == Some(t) && Nearest(ToText(TimestampBytes(t))) == t
  {
    FormatIntAscii(t);
    FormatIntValue(t);
    TextRoundTrip(FormatInt(t));
  }

  /** Salt and signature are read as they were written exactly when each is at hand as a whole. */
  lemma FieldsRead(salt: seq<byte>, signature: seq<byte>, front: seq<byte>, middle: seq<byte>, rest: seq<byte>,
                   n1: pos, n2: pos)
    requires |salt| == |front| > 0 && |signature| == |middle| > 0
    ensures var first := ReadInto(salt, front + (middle + rest), n1);
            && first.Some?
            && var second := ReadInto(signature, first.value.1, n2);
               && second.Some?
               && (if n1 >= |front| && n2 >= |middle|
                   then first.value.0 == front && second == Some((middle, rest)) else |second.value.1| > |rest|)
  {
    ReadIntoFront(salt, front, middle + rest, n1);
    if n1 >= |front| {
      ReadIntoFront(signature, middle, rest, n2);
    }
  }

  /**
   A container read back is the one that was written, whatever the reader held
   before, exactly when salt and signature are each at hand as a whole.
   */
  lemma ReadSerialized(c: Container, reader: Container, n1: pos, n2: pos)
    requires |reader.salt| == |c.salt| > 0 && |reader.signature| == |c.signature| > 0
    ensures var i := |TimestampBytes(c.timestamp)|;
            && FirstBar(Serialized(c), i)
            && (ReadFields(reader, Serialized(c), i, n1, n2) == (c, None) <==> n1 >= |c.salt| && n2 >= |c.signature|)
  {
    SerializedParts(c);
    TimestampRead(c.timestamp);
    FieldsRead(reader.salt, reader.signature, c.salt, c.signature, c.rawMsg, n1, n2);
  }

  // --- keys ------------------------------------------------------------------------

  /** The first key of the chain, newest first, that authenticates the container. */
  function Match(crypto: Crypto, keys: seq<Key>, c: Container): Option<Key> {
    if keys == [] then None
    else if IsAuthentic(crypto, c, keys[0]) then Some(keys[0])
    else Match(crypto, keys[1..], c)
  }

  function Pushed(keys: seq<Key>, more: seq<Key>): seq<Key> {
    if more == [] then keys else [more[|more| - 1]] + Pushed(keys, more[..|more| - 1])
  }

  /** The match is authentic and nothing newer is; there is one if any key is authentic. */
  lemma {:induction false} MatchIsNewest(crypto: Crypto, keys: seq<Key>, c: Container)
    ensures match Match(crypto, keys, c)
            case Some(key) => exists i :: 0 <= i < |keys| && keys[i] == key && IsAuthentic(crypto, c, key)
                                          && forall j :: 0 <= j < i ==> !IsAuthentic(crypto, c, keys[j])
            case None => forall i :: 0 <= i < |keys| ==> !IsAuthentic(crypto, c, keys[i])
  {
    if keys != [] && !IsAuthentic(crypto, c, keys[0]) {
      MatchIsNewest(crypto, keys[1..], c);
      var rest := Match(crypto, keys[1..], c);
      if rest.Some? {
        var i :| 0 <= i < |keys[1..]| && keys[1..][i] == rest.value
                 && forall j :: 0 <= j < i ==> !IsAuthentic(crypto, c, keys[1..][j]);
        assert keys[i + 1] == rest.value;
        forall j | 0 <= j < i + 1 ensures !IsAuthentic(crypto, c, keys[j]) {
          if j > 0 { assert keys[j] == keys[1..][j - 1]; }
        }
      }
    }
  }

  /** Pushing keys never loses the match; keys that do not authenticate leave it as it was. */
  lemma {:induction false} MatchSurvivesRotation(crypto: Crypto, keys: seq<Key>, more: seq<Key>, c: Container)
    ensures Match(crypto, keys, c).Some? ==> Match(crypto, Pushed(keys, more), c).Some?
    ensures (forall i :: 0 <= i < |more| ==> !IsAuthentic(crypto, c, more[i])) ==>
              Match(crypto, Pushed(keys, more), c) == Match(crypto, keys, c)
  {
    if more != [] {
      var before := Pushed(keys, more[..|more| - 1]);
      MatchSurvivesRotation(crypto, keys, more[..|more| - 1], c);
      assert Pushed(keys, more)[1..] == before;
    }
  }

  /** A container sealed with the newest key is matched by that very key. */
  lemma NewestKeyMatches(crypto: Crypto, keys: seq<Key>, timestamp: int64, salt: seq<byte>, iv: seq<byte>,
                         payload: Payload)
    requires keys != [] && crypto.Packs(payload) && |iv| == BLOCK_SIZE
    ensures Match(crypto, keys, Sealed(crypto, keys[0], timestamp, salt, iv, payload)) == Some(keys[0])
  {
    OpenSealed(crypto, keys[0], timestamp, salt, iv, payload);
  }

  /**
   Decoding adds to the entries a container holds: a container that holds `held`
   ends with what was sealed exactly when that names every entry of `held`.
   */
  lemma DecodedIntoHeld(crypto: Crypto, key: Key, timestamp: int64, salt: seq<byte>, iv: seq<byte>,
                        held: Payload, sent: Payload)
    requires crypto.Packs(sent) && |iv| == BLOCK_SIZE
    ensures var found := Opened(crypto, key, Sealed(crypto, key, timestamp, salt, iv, sent));
            found.Some? && (held + found.value == sent <==> held.Keys <= sent.Keys)
  {
    OpenSealed(crypto, key, timestamp, salt, iv, sent);
    if held + sent == sent {
      forall name | name in held ensures name in sent {
        assert name in held + sent;
      }
    }
  }

  /** An entry that was held and not sent stays: an empty payload does not arrive. */
  lemma HeldEntryStays(crypto: Crypto, key: Key, salt: seq<byte>, iv: seq<byte>)
    requires crypto.Packs(map[]) && |iv| == BLOCK_SIZE
    ensures var held: Payload := map["user" := Null];
            var found := Opened(crypto, key, Sealed(crypto, key, 0, salt, iv, map[]));
            found.Some? && held + found.value == held != map[]
  {
    OpenSealed(crypto, key, 0, salt, iv, map[]);
    var held: Payload := map["user" := Null];
    assert "user" in held;
    assert held + map[] == held;
  }

  /**
   A sealed container survives transport and key rotation: its fields arrive, some
   key of the chain authenticates it, and the signing key restores the payload.
   */
  lemma SealedArrives(crypto: Crypto, keys: seq<Key>, more: seq<Key>, key: Key, timestamp: int64,
                      salt: seq<byte>, iv: seq<byte>, payload: Payload, reader: Container, n1: pos, n2: pos)
    requires crypto.Packs(payload) && |salt| == SALT_SIZE && |iv| == BLOCK_SIZE
    requires |reader.salt| == SALT_SIZE
    requires |reader.signature| == |Sealed(crypto, key, timestamp, salt, iv, payload).signature| > 0
    requires n1 >= |reader.salt| && n2 >= |reader.signature|
    requires key in keys
    ensures var c := Sealed(crypto, key, timestamp, salt, iv, payload);
            && Base64.Read(Base64.Encode(Serialized(c))) == Some(Serialized(c))
            && FirstBar(Serialized(c), |TimestampBytes(timestamp)|)
            && ReadFields(reader, Serialized(c), |TimestampBytes(timestamp)|, n1, n2) == (c, None)
            && Match(crypto, Pushed(keys, more), c).Some?
            && IsAuthentic(crypto, c, Match(crypto, Pushed(keys, more), c).value)
            && Opened(crypto, key, c) == Some(payload)
  {
    var c := Sealed(crypto, key, timestamp, salt, iv, payload);
    Base64.ReadEncoded(Serialized(c));
    ReadSerialized(c, reader, n1, n2);
    OpenSealed(crypto, key, timestamp, salt, iv, payload);
    MatchIsNewest(crypto, keys, c);
    MatchSurvivesRotation(crypto, keys, more, c);
    MatchIsNewest(crypto, Pushed(keys, more), c);
  }

  /** For every payload there are functions that meet what the results above ask of them. */
  lemma PackingExists(payload: Payload, key: Key, salt: seq<byte>, iv: seq<byte>) returns (crypto: Crypto)
    ensures crypto.Packs(payload) && |Sealed(crypto, key, 0, salt, iv, payload).signature| == crypto.size > 0
  {
    crypto := Crypto(1, (key, msg) => [0], (key, salt) => [], (key, iv, i) => 0, p => [0], b => Some(payload));
  }

  // --- the objects -----------------------------------------------------------------

  datatype KeyError = NoKeys | NoMatchingKey

  class Keychain {
    var keys: seq<Key>

    constructor ()
      ensures keys == []
    {
      keys := [];
    }

    /** `pushKey`: the new key comes first. */
    method PushKey(key: Key)
      modifies this
      ensures keys == [key] + old(keys) == Pushed(old(keys), [key])
    {
      assert Pushed(keys, [key]) == [key] + Pushed(keys, []);
      keys := [key] + keys;
    }

    /** `BinKey`: the key that was pushed last, whatever was pushed before it. */
    method BinKey() returns (r: Result<Key, KeyError>)
      ensures r == Err(NoKeys) <==> keys == []
      ensures forall older, more :: keys == Pushed(older, more) && more != [] ==> r == Ok(more[|more| - 1])
    {
      r := if |keys| == 0 then Err(NoKeys) else Ok(keys[0]);
    }

    method MatchKey(a: Authorization) returns (r: Result<Key, KeyError>)
      ensures keys == [] ==> r == Err(NoKeys)
      ensures keys != [] ==> r == match Match(a.crypto, keys, a.State()) {
                                    case Some(key) => Ok(key)
                                    case None => Err(NoMatchingKey)
                                  }
    {
      if |keys| == 0 { return Err(NoKeys); }
      for i := 0 to |keys|
        invariant Match(a.crypto, keys, a.State()) == Match(a.crypto, keys[i..], a.State())
      {
        var ok := a.CheckKey(keys[i]);
        if ok { return Ok(keys[i]); }
        assert keys[i..][1..] == keys[i + 1..];
      }
      r := Err(NoMatchingKey);
    }
  }

  datatype CodeError = NoError | ErrMsgSize | ErrRandom | ErrDecrypt | ErrFormat

  class Authorization {
    var timestamp: int64
    var salt: seq<byte>
    var signature: seq<byte>
    var rawMsg: seq<byte>
    var payload: Payload
    const crypto: Crypto

    constructor (crypto: Crypto)
      ensures this.crypto == crypto && payload == map[] && timestamp == 0 && rawMsg == []
      ensures |salt| == 8 && |signature| == crypto.size
    {
      this.crypto := crypto;
      timestamp, rawMsg, payload := 0, [], map[];
      salt, signature := seq(SALT_SIZE, i => 0), seq(crypto.size, i => 0);
    }

    ghost function State(): Container
      reads this
    {
      Container(timestamp, salt, signature, rawMsg)
    }

    /** `Message`. */
    method Msg() returns (msg: seq<byte>)
      ensures msg == Message(State())
    {
      msg := TimestampBytes(timestamp) + salt;
      msg := msg + rawMsg;
    }

    /** `IsAuthentic`. */
    method CheckKey(key: Key) returns (ok: bool)
      ensures ok <==> IsAuthentic(crypto, State(), key)
    {
      var msg := Msg();
      ok := signature == crypto.mac(key, msg);
    }

    /** `Encode`, with the random bytes it draws, if the source of randomness delivers. */
    method Encode(key: Key, newSalt: Option<seq<byte>>, iv: Option<seq<byte>>) returns (err: CodeError)
      requires newSalt.Some? ==> |newSalt.value| == 8
      requires iv.Some? ==> |iv.value| == 16
      modifies this
      ensures payload == old(payload) && timestamp == old(timestamp)
      ensures err == ErrMsgSize <==> |crypto.pack(payload)| > 4096
      ensures err == ErrRandom <==> err != ErrMsgSize && (newSalt.None? || iv.None?)
      ensures err == NoError <==> err != ErrMsgSize && err != ErrRandom
      ensures err == NoError ==> State() == Sealed(crypto, key, timestamp, newSalt.value, iv.value, payload)
      ensures err != NoError ==> rawMsg == old(rawMsg) && signature == old(signature)
    {
      var encoded := crypto.pack(payload);
      if |encoded| > MAX_MSG_SIZE { return ErrMsgSize; }
      if newSalt.None? { return ErrRandom; }
      salt := newSalt.value;
      var blockKey := crypto.derive(key, salt);
      if iv.None? { return ErrRandom; }
      rawMsg := iv.value + Ctr(crypto, blockKey, iv.value, encoded);
      var msg := Msg();
      signature := crypto.mac(key, msg);
      err := NoError;
    }

    /** `Decode`: what was packed is added to the entries the container already holds. */
    method Decode(key: Key) returns (err: CodeError)
      modifies this
      ensures timestamp == old(timestamp) && salt == old(salt) && signature == old(signature)
      ensures err == ErrDecrypt <==> |old(rawMsg)| <= 16
      ensures err == NoError <==> Opened(crypto, key, old(State())).Some?
      ensures payload == old(payload) + if err == NoError then Opened(crypto, key, old(State())).value else map[]
    {
      var blockKey := crypto.derive(key, salt);
      var plain := Decrypt(crypto, blockKey, rawMsg);
      match plain {
        case None =>
          rawMsg := [];
          return ErrDecrypt;
        case Some(packed) =>
          rawMsg := packed;
          var unpacked := crypto.unpack(packed);
          if unpacked.None? { return ErrFormat; }
          payload := payload + unpacked.value;
          err := NoError;
      }
    }

    /** `WriteTo`. */
    method WriteTo() returns (out: string)
      ensures out == Base64.Encode(Serialized(State()))
    {
      var data := TimestampBytes(timestamp) + [BAR];
      data := data + salt + signature + rawMsg;
      out := Base64.Encode(data);
    }

    /** The fields around the delimiter. */
    method ReadParts(data: seq<byte>, i: nat, n1: pos, n2: pos) returns (err: Option<ReadError>)
      requires FirstBar(data, i)
      modifies this
      ensures payload == old(payload)
      ensures (State(), err) == ReadFields(old(State()), data, i, n1, n2)
    {
      var text := ToText(data[..i]);
      timestamp := Nearest(text);
      if ParseInt(text).None? { return Some(BadTimestamp); }
      var read := ReadInto(salt, data[i + 1..], n1);
      if read.None? { return Some(EndOfData); }
      salt := read.value.0;
      read := ReadInto(signature, read.value.1, n2);
      if read.None? { return Some(EndOfData); }
      signature, rawMsg := read.value.0, read.value.1;
      err := None;
    }

    /** `ReadFrom`. The fields read before an error keep what was read. */
    method ReadFrom(input: string, n1: pos, n2: pos) returns (err: Option<ReadError>)
      modifies this
      ensures payload == old(payload)
      ensures match Base64.Read(input)
              case None => err == Some(Corrupt) && State() == old(State())
              case Some(data) =>
                && (forall i :: FirstBar(data, i) ==> (State(), err) == ReadFields(old(State()), data, i, n1, n2))
                && (BAR !in data ==> err == Some(NoDelimiter) && State() == old(State()))
    {
      var decoded := Base64.Read(input);
      if decoded.None? { return Some(Corrupt); }
      var data := decoded.value;
      var i := 0;
      while i < |data| && data[i] != BAR
        invariant 0 <= i <= |data| && forall j :: 0 <= j < i ==> data[j] != BAR
      {
        i := i + 1;
      }
      if i == |data| { return Some(NoDelimiter); }
      FirstBarOnly(data, i);
      err := ReadParts(data, i, n1, n2);
    }
  }
}
