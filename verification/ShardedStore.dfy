/** The sharded, batched store of ledger/level_db.cpp. */
module ShardedStore {
  import opened Base

  type Bytes = seq<bv8>

  // ---------------------------------------------------------------- routing

  const SHARDS: nat := 16   // 1 << _shardBits

  /** decodeFixed32: four bytes, the lowest first. */
  function DecodeFixed32(data: Bytes, at: nat): bv32
    requires at + 4 <= |data|
  {
    Placed(data[at], 0) | Placed(data[at + 1], 8) | Placed(data[at + 2], 16) | Placed(data[at + 3], 24)
  }

  // Operators on uint32_t values; addition and multiplication wrap around.

  function Plus(a: bv32, b: bv32): bv32 {
    a + b
  }

  function TimesM(h: bv32): bv32 {
    h * 0xc6a4a793
  }

  function Xor(a: bv32, b: bv32): bv32 {
    a ^ b
  }

  /** A byte in its place within a word. */
  function Placed(b: bv8, shift: bv32): bv32
    requires shift < 32
  {
    (b as bv32) << shift
  }

  function High(h: bv32, shift: bv32): bv32
    requires shift < 32
  {
    h >> shift
  }

  function Fold(h: bv32, shift: bv32): bv32
    requires shift < 32
  {
    Xor(h, High(h, shift))
  }

  /** One round of the hash, on four bytes. */
  function Round(h: bv32, w: bv32): bv32 {
    Fold(TimesM(Plus(h, w)), 16)
  }

  function Finish(h: bv32): bv32 {
    Fold(TimesM(h), 24)
  }

  /** The last one to three bytes. */
  function LastBytes(data: Bytes, at: nat, h: bv32): bv32
    requires at <= |data| < at + 4
  {
    if at == |data| then h
    else if at + 1 == |data| then Finish(Plus(h, Placed(data[at], 0)))
    else if at + 2 == |data| then Finish(Plus(Plus(h, Placed(data[at + 1], 8)), Placed(data[at], 0)))
    else Finish(Plus(Plus(Plus(h, Placed(data[at + 2], 16)), Placed(data[at + 1], 8)), Placed(data[at], 0)))
  }

  /** The hash of data[at..], from an intermediate value h. */
  function HashFrom(data: Bytes, at: nat, h: bv32): bv32
    requires at <= |data|
    decreases |data| - at
  {
    if at + 4 <= |data| then HashFrom(data, at + 4, Round(h, DecodeFixed32(data, at)))
    else LastBytes(data, at, h)
  }

  function HashOf(data: Bytes, seed: bv32): bv32 {
    HashFrom(data, 0, Start(data, seed))
  }

  /** The length as a uint32_t. */
  function Length(n: nat): bv32 {
    (n % 0x1_0000_0000) as bv32
  }

  function Start(data: Bytes, seed: bv32): bv32 {
    Xor(seed, TimesM(Length(|data|)))
  }

  /** LevelDB::hash, 32-bit arithmetic wrapping around. */
  method Hash(data: Bytes, seed: bv32) returns (h: bv32)
    ensures h == HashOf(data, seed)
  {
    hide Start, Round, DecodeFixed32, Placed, Finish, Plus;
    h := Start(data, seed);
    var at := 0;
    while at + 4 <= |data|
      invariant at <= |data| && HashOf(data, seed) == HashFrom(data, at, h)
    {
      h := Round(h, DecodeFixed32(data, at));
      at := at + 4;
    }
    var left := |data| - at;
    if left >= 3 {
      h := Plus(h, Placed(data[at + 2], 16));
    }
    if left >= 2 {
      h := Plus(h, Placed(data[at + 1], 8));
    }
    if left >= 1 {
      h := Finish(Plus(h, Placed(data[at], 0)));
    }
  }

  /** The shard that a key belongs to. */
  function Route(key: Bytes): (i: nat)
    ensures i < SHARDS
  {
    (HashOf(key, 0) as nat) % SHARDS
  }

  /** LevelDB::shard of LevelDB::hashSlice, which every operation on a key calls. */
  method ShardOf(key: Bytes) returns (idx: nat)
    ensures idx == Route(key)
  {
    hide HashOf;
    var h := Hash(key, 0);
    idx := (h as nat) % SHARDS;
  }

  // ---------------------------------------------------------------- what the hash is

  lemma SmallLength1()
    ensures Length(1) == 1
  {
    assert 1 % 0x1_0000_0000 == 1 && 1 as bv32 == 1;
  }

  lemma SmallLength2()
    ensures Length(2) == 2
  {
    assert 2 % 0x1_0000_0000 == 2 && 2 as bv32 == 2;
  }

  lemma SmallLength3()
    ensures Length(3) == 3
  {
    assert 3 % 0x1_0000_0000 == 3 && 3 as bv32 == 3;
  }

  lemma SmallLength4()
    ensures Length(4) == 4
  {
    assert 4 % 0x1_0000_0000 == 4 && 4 as bv32 == 4;
  }

  lemma SmallLength9()
    ensures Length(9) == 9
  {
    assert 9 % 0x1_0000_0000 == 9 && 9 as bv32 == 9;
  }

  lemma SmallLength11()
    ensures Length(11) == 11
  {
    assert 11 % 0x1_0000_0000 == 11 && 11 as bv32 == 11;
  }

  lemma OneByteSteps()
    ensures Start([0x62], 0xbc9f1d34) == 0x7a3bbaa7
    ensures LastBytes([0x62], 0, 0x7a3bbaa7) == 0xef1345c4
  {
    SmallLength1();
  }

  /** Values worked out by hand: one byte after the last word, */
  lemma OneByte()
    ensures HashOf([0x62], 0xbc9f1d34) == 0xef1345c4
  {
    hide Start, DecodeFixed32, Round, LastBytes;
    OneByteSteps();
  }

  lemma TwoBytesSteps()
    ensures Start([0xc3, 0x97], 0xbc9f1d34) == 0x31d65212
    ensures LastBytes([0xc3, 0x97], 0, 0x31d65212) == 0x5b663814
  {
    SmallLength2();
  }

  /** two, */
  lemma TwoBytes()
    ensures HashOf([0xc3, 0x97], 0xbc9f1d34) == 0x5b663814
  {
    hide Start, DecodeFixed32, Round, LastBytes;
    TwoBytesSteps();
  }

  lemma ThreeBytesSteps()
    ensures Start([0xe2, 0x99, 0xa5], 0xbc9f1d34) == 0xef72eb8d
    ensures LastBytes([0xe2, 0x99, 0xa5], 0, 0xef72eb8d) == 0x323c078f
  {
    SmallLength3();
  }

  /** three, */
  lemma ThreeBytes()
    ensures HashOf([0xe2, 0x99, 0xa5], 0xbc9f1d34) == 0x323c078f
  {
    hide Start, DecodeFixed32, Round, LastBytes;
    ThreeBytesSteps();
  }

  lemma OneWordSteps()
    ensures Start([0xe1, 0x80, 0xb9, 0x32], 0xbc9f1d34) == 0xa60d8378
    ensures DecodeFixed32([0xe1, 0x80, 0xb9, 0x32], 0) == 0x32b980e1
    ensures Round(0xa60d8378, 0x32b980e1) == 0xed21633a
    ensures LastBytes([0xe1, 0x80, 0xb9, 0x32], 4, 0xed21633a) == 0xed21633a
  {
    SmallLength4();
  }

  /** none, */
  lemma OneWord()
    ensures HashOf([0xe1, 0x80, 0xb9, 0x32], 0xbc9f1d34) == 0xed21633a
  {
    hide Start, DecodeFixed32, Round, LastBytes;
    OneWordSteps();
  }

  lemma Key1Steps()
    ensures Start([0x6b, 0x65, 0x79, 0x31], 0) == 0x1a929e4c
    ensures DecodeFixed32([0x6b, 0x65, 0x79, 0x31], 0) == 0x3179656b
    ensures Round(0x1a929e4c, 0x3179656b) == 0x6c8eef9b
    ensures LastBytes([0x6b, 0x65, 0x79, 0x31], 4, 0x6c8eef9b) == 0x6c8eef9b
  {
    SmallLength4();
  }

  /** and keys of the store: "key1", */
  lemma Key1()
    ensures HashOf([0x6b, 0x65, 0x79, 0x31], 0) == 0x6c8eef9b && Route([0x6b, 0x65, 0x79, 0x31]) == 11
  {
    hide Start, DecodeFixed32, Round, LastBytes;
    Key1Steps();
  }

  lemma NineBytesSteps()
    ensures Start([0x6c, 0x65, 0x64, 0x67, 0x65, 0x72, 0x20, 0x30, 0x31], 0) == 0xfbc9e42b
    ensures DecodeFixed32([0x6c, 0x65, 0x64, 0x67, 0x65, 0x72, 0x20, 0x30, 0x31], 0) == 0x6764656c
    ensures Round(0xfbc9e42b, 0x6764656c) == 0x1451d6e4
    ensures DecodeFixed32([0x6c, 0x65, 0x64, 0x67, 0x65, 0x72, 0x20, 0x30, 0x31], 4) == 0x30207265
    ensures Round(0x1451d6e4, 0x30207265) == 0x4432f7d9
    ensures LastBytes([0x6c, 0x65, 0x64, 0x67, 0x65, 0x72, 0x20, 0x30, 0x31], 8, 0x4432f7d9) == 0x0b7af3b5
  {
    SmallLength9();
  }

  /** "ledger 01" */
  lemma NineBytes()
    ensures HashOf([0x6c, 0x65, 0x64, 0x67, 0x65, 0x72, 0x20, 0x30, 0x31], 0) == 0x0b7af3b5 && Route([0x6c, 0x65, 0x64, 0x67, 0x65, 0x72, 0x20, 0x30, 0x31]) == 5
  {
    hide Start, DecodeFixed32, Round, LastBytes;
    NineBytesSteps();
  }

  lemma ElevenBytesSteps()
    ensures Start([0x6c, 0x65, 0x64, 0x67, 0x65, 0x72, 0x20, 0x30, 0x30, 0x30, 0x31], 0) == 0x89133351
    ensures DecodeFixed32([0x6c, 0x65, 0x64, 0x67, 0x65, 0x72, 0x20, 0x30, 0x30, 0x30, 0x31], 0) == 0x6764656c
    ensures Round(0x89133351, 0x6764656c) == 0x2063dfe4
    ensures DecodeFixed32([0x6c, 0x65, 0x64, 0x67, 0x65, 0x72, 0x20, 0x30, 0x30, 0x30, 0x31], 4) == 0x30207265
    ensures Round(0x2063dfe4, 0x30207265) == 0xba6c6487
    ensures LastBytes([0x6c, 0x65, 0x64, 0x67, 0x65, 0x72, 0x20, 0x30, 0x30, 0x30, 0x31], 8, 0xba6c6487) == 0xc3bbc6d6
  {
    SmallLength11();
  }

  /** and "ledger 0001". */
  lemma ElevenBytes()
    ensures HashOf([0x6c, 0x65, 0x64, 0x67, 0x65, 0x72, 0x20, 0x30, 0x30, 0x30, 0x31], 0) == 0xc3bbc6d6 && Route([0x6c, 0x65, 0x64, 0x67, 0x65, 0x72, 0x20, 0x30, 0x30, 0x30, 0x31]) == 6
  {
    hide Start, DecodeFixed32, Round, LastBytes;
    ElevenBytesSteps();
  }

  // Every step of the hash can be undone.

  function Minus(a: bv32, b: bv32): bv32 {
    a - b
  }

  lemma MinusRaw(a: bv32, b: bv32)
    ensures Minus(a + b, b) == a
  {
  }

  lemma PlusBack(a: bv32, b: bv32)
    ensures Minus(Plus(a, b), b) == a
  {
    hide Minus;
    MinusRaw(a, b);
  }

  lemma PlusSwap(a: bv32, b: bv32)
    ensures Plus(a, b) == Plus(b, a)
  {
  }

  lemma PlusInjective(h: bv32, h': bv32, w: bv32, w': bv32)
    requires Plus(h, w) == Plus(h', w')
    ensures h == h' <==> w == w'
  {
    hide Plus, Minus;
    PlusBack(h, w);
    PlusBack(h', w');
    PlusSwap(h, w);
    PlusSwap(h', w');
    PlusBack(w, h);
    PlusBack(w', h');
  }

  lemma PlusRaw(a: bv32, b: bv32, c: bv32)
    ensures Plus(a + b, c) == Plus(a, b + c)
  {
  }

  lemma PlusRegroup(a: bv32, b: bv32, c: bv32)
    ensures Plus(Plus(a, b), c) == Plus(a, Plus(b, c))
  {
    assert Plus(a, b) == a + b && Plus(b, c) == b + c;
    hide Plus;
    PlusRaw(a, b, c);
  }

  /** The factor is odd, so that it has an inverse. */
  function OverM(h: bv32): bv32 {
    h * 0xd8198e9b
  }

  lemma OverMRaw(h: bv32)
    ensures OverM(h * 0xc6a4a793) == h
  {
  }

  lemma TimesMBack(h: bv32)
    ensures OverM(TimesM(h)) == h
  {
    hide OverM;
    OverMRaw(h);
  }

  lemma XorRaw(a: bv32, b: bv32)
    ensures Xor(a ^ b, b) == a
  {
  }

  lemma XorBack(a: bv32, b: bv32)
    ensures Xor(Xor(a, b), b) == a
  {
    assert Xor(a, b) == a ^ b;
    hide Xor;
    XorRaw(a, b);
  }

  lemma HighStays16(h: bv32)
    ensures High(Fold(h, 16), 16) == High(h, 16)
  {
  }

  lemma HighStays24(h: bv32)
    ensures High(Fold(h, 24), 24) == High(h, 24)
  {
  }

  lemma Fold16Injective(h: bv32, h': bv32)
    requires Fold(h, 16) == Fold(h', 16)
    ensures h == h'
  {
    hide Xor, High;
    HighStays16(h);
    HighStays16(h');
    XorBack(h, High(h, 16));
    XorBack(h', High(h', 16));
  }

  lemma Fold24Injective(h: bv32, h': bv32)
    requires Fold(h, 24) == Fold(h', 24)
    ensures h == h'
  {
    hide Xor, High;
    HighStays24(h);
    HighStays24(h');
    XorBack(h, High(h, 24));
    XorBack(h', High(h', 24));
  }

  lemma RoundInjective(h: bv32, h': bv32, w: bv32, w': bv32)
    requires Round(h, w) == Round(h', w')
    ensures h == h' <==> w == w'
  {
    hide Fold, TimesM, Plus, OverM;
    Fold16Injective(TimesM(Plus(h, w)), TimesM(Plus(h', w')));
    TimesMBack(Plus(h, w));
    TimesMBack(Plus(h', w'));
    PlusInjective(h, h', w, w');
  }

  lemma FinishInjective(h: bv32, h': bv32)
    requires Finish(h) == Finish(h')
    ensures h == h'
  {
    hide Fold, TimesM, OverM;
    Fold24Injective(TimesM(h), TimesM(h'));
    TimesMBack(h);
    TimesMBack(h');
  }

  lemma WordInjective(data: Bytes, data': Bytes, at: nat)
    requires |data| == |data'| && at + 4 <= |data| && DecodeFixed32(data, at) == DecodeFixed32(data', at)
    ensures forall i :: at <= i < at + 4 ==> data[i] == data'[i]
  {
    hide Placed;
    FourBytes(data[at], data[at + 1], data[at + 2], data[at + 3], data'[at], data'[at + 1], data'[at + 2], data'[at + 3]);
  }

  lemma FourBytes(a: bv8, b: bv8, c: bv8, d: bv8, a': bv8, b': bv8, c': bv8, d': bv8)
    requires Placed(a, 0) | Placed(b, 8) | Placed(c, 16) | Placed(d, 24) ==
             Placed(a', 0) | Placed(b', 8) | Placed(c', 16) | Placed(d', 24)
    ensures a == a' && b == b' && c == c' && d == d'
  {
  }

  lemma FewBytes(a: bv8, b: bv8, c: bv8, a': bv8, b': bv8, c': bv8)
    requires Plus(Plus(Placed(c, 16), Placed(b, 8)), Placed(a, 0)) == Plus(Plus(Placed(c', 16), Placed(b', 8)), Placed(a', 0))
    ensures a == a' && b == b' && c == c'
  {
  }

  /** The last one to three bytes as one word. */
  function LastWord(data: Bytes, at: nat): bv32
    requires at < |data| < at + 4
  {
    if at + 1 == |data| then Placed(data[at], 0)
    else if at + 2 == |data| then Plus(Placed(data[at + 1], 8), Placed(data[at], 0))
    else Plus(Plus(Placed(data[at + 2], 16), Placed(data[at + 1], 8)), Placed(data[at], 0))
  }

  lemma LastBytesAre(data: Bytes, at: nat, h: bv32)
    requires at < |data| < at + 4
    ensures LastBytes(data, at, h) == Finish(Plus(h, LastWord(data, at)))
  {
    hide Plus, Placed, Finish;
    if at + 2 == |data| {
      PlusRegroup(h, Placed(data[at + 1], 8), Placed(data[at], 0));
    } else if at + 3 == |data| {
      var b, c := Placed(data[at + 1], 8), Placed(data[at + 2], 16);
      PlusRegroup(h, c, b);
      PlusRegroup(h, Plus(c, b), Placed(data[at], 0));
    }
  }

  lemma LastWordInjective(data: Bytes, data': Bytes, at: nat)
    requires |data| == |data'| && at < |data| < at + 4 && LastWord(data, at) == LastWord(data', at)
    ensures forall i :: at <= i < |data| ==> data[i] == data'[i]
  {
    if at + 1 == |data| {
      OneOfFew(data[at], data'[at]);
    } else if at + 2 == |data| {
      TwoOfFew(data[at], data[at + 1], data'[at], data'[at + 1]);
    } else {
      FewBytes(data[at], data[at + 1], data[at + 2], data'[at], data'[at + 1], data'[at + 2]);
    }
  }

  lemma OneOfFew(a: bv8, a': bv8)
    requires Placed(a, 0) == Placed(a', 0)
    ensures a == a'
  {
  }

  lemma TwoOfFew(a: bv8, b: bv8, a': bv8, b': bv8)
    requires Plus(Placed(b, 8), Placed(a, 0)) == Plus(Placed(b', 8), Placed(a', 0))
    ensures a == a' && b == b'
  {
  }

  /** After the same bytes from there on, two intermediate values are still different. */
  lemma {:induction false} StayApart(data: Bytes, data': Bytes, at: nat, h: bv32, h': bv32)
    requires |data| == |data'| && at <= |data| && (forall i :: at <= i < |data| ==> data[i] == data'[i]) && h != h'
    ensures HashFrom(data, at, h) != HashFrom(data', at, h')
    decreases |data| - at
  {
    hide Round, Finish, Plus, Placed, DecodeFixed32, LastBytes;
    if at + 4 <= |data| {
      SameWord(data, data', at);
      var w := DecodeFixed32(data, at);
      if Round(h, w) == Round(h', w) {
        RoundInjective(h, h', w, w);
      }
      StayApart(data, data', at + 4, Round(h, w), Round(h', w));
    } else {
      LastApart(data, data', at, h, h');
    }
  }

  lemma SameWord(data: Bytes, data': Bytes, at: nat)
    requires |data| == |data'| && at + 4 <= |data| && forall i :: at <= i < at + 4 ==> data[i] == data'[i]
    ensures DecodeFixed32(data, at) == DecodeFixed32(data', at)
  {
    hide Placed;
  }

  /** Either the intermediate values or the bytes differ, not both. */
  lemma LastApart(data: Bytes, data': Bytes, at: nat, h: bv32, h': bv32)
    requires |data| == |data'| && at <= |data| < at + 4
    requires h != h' <==> forall i :: at <= i < |data| ==> data[i] == data'[i]
    ensures LastBytes(data, at, h) != LastBytes(data', at, h')
  {
    hide Finish, Plus, Placed;
    if at < |data| {
      LastBytesAre(data, at, h);
      LastBytesAre(data', at, h');
      hide LastBytes, LastWord;
      if LastBytes(data, at, h) == LastBytes(data', at, h') {
        FinishInjective(Plus(h, LastWord(data, at)), Plus(h', LastWord(data', at)));
        PlusInjective(h, h', LastWord(data, at), LastWord(data', at));
        if h == h' {
          LastWordInjective(data, data', at);
        } else {
          SameLastWord(data, data', at);
        }
      }
    }
  }

  lemma SameLastWord(data: Bytes, data': Bytes, at: nat)
    requires |data| == |data'| && at < |data| < at + 4 && forall i :: at <= i < |data| ==> data[i] == data'[i]
    ensures LastWord(data, at) == LastWord(data', at)
  {
    hide Placed, Plus;
  }

  /** Keys of one length that differ in one word only have different hashes. */
  lemma {:induction false} WordMatters(data: Bytes, data': Bytes, from: nat, at: nat, h: bv32)
    requires |data| == |data'| && from <= at < |data| && (at - from) % 4 == 0
    requires forall i :: from <= i < |data| && !(at <= i < at + 4) ==> data[i] == data'[i]
    requires exists i :: at <= i < |data| && data[i] != data'[i]
    ensures HashFrom(data, from, h) != HashFrom(data', from, h)
    decreases at - from
  {
    hide Round, Finish, Plus, Placed, DecodeFixed32, LastBytes;
    if from < at {
      SameWord(data, data', from);
      WordMatters(data, data', from + 4, at, Round(h, DecodeFixed32(data, from)));
    } else if at + 4 <= |data| {
      var w, w' := DecodeFixed32(data, at), DecodeFixed32(data', at);
      if w == w' {
        WordInjective(data, data', at);
      }
      if Round(h, w) == Round(h, w') {
        RoundInjective(h, h, w, w');
      }
      StayApart(data, data', at + 4, Round(h, w), Round(h, w'));
    } else {
      LastApart(data, data', at, h, h);
    }
  }

  lemma HashTellsApart(key: Bytes, key': Bytes, at: nat, seed: bv32)
    requires |key| == |key'| && key != key' && at % 4 == 0 && at < |key|
    requires forall i :: 0 <= i < |key| && !(at <= i < at + 4) ==> key[i] == key'[i]
    ensures HashOf(key, seed) != HashOf(key', seed)
  {
    hide HashFrom, Start;
    SameStart(key, key', seed);
    WordMatters(key, key', 0, at, Start(key, seed));
  }

  lemma SameStart(key: Bytes, key': Bytes, seed: bv32)
    requires |key| == |key'|
    ensures Start(key, seed) == Start(key', seed)
  {
    hide Length, Xor, TimesM;
  }

  // ---------------------------------------------------------------- batches

  type Shard = map<Bytes, Bytes>

  datatype Op = Put(key: Bytes, value: Bytes) | Delete(key: Bytes)

  function ApplyOp(op: Op, m: Shard): Shard {
    match op
    case Put(k, v) => m[k := v]
    case Delete(k) => m - {k}
  }

  /** A write batch: its operations in order. */
  function Apply(ops: seq<Op>, m: Shard): Shard {
    if ops == [] then m else ApplyOp(ops[|ops| - 1], Apply(ops[..|ops| - 1], m))
  }

  /** The last operation on a key decides. */
  function LastOn(ops: seq<Op>, k: Bytes): Option<Op> {
    if ops == [] then None
    else if ops[|ops| - 1].key == k then Some(ops[|ops| - 1])
    else LastOn(ops[..|ops| - 1], k)
  }

  function Get(m: Shard, k: Bytes): Option<Bytes> {
    if k in m then Some(m[k]) else None
  }

  lemma {:induction false} ApplyAt(ops: seq<Op>, m: Shard, k: Bytes)
    ensures Get(Apply(ops, m), k) ==
            match LastOn(ops, k)
            case None => Get(m, k)
            case Some(Put(_, v)) => Some(v)
            case Some(Delete(_)) => None
  {
    if ops != [] {
      ApplyAt(ops[..|ops| - 1], m, k);
    }
  }

  lemma SameMap(m: Shard, m': Shard)
    requires forall k :: Get(m, k) == Get(m', k)
    ensures m == m'
  {
    forall k
      ensures k in m <==> k in m'
    {
      assert Get(m, k) == Get(m', k);
    }
    forall k | k in m
      ensures m[k] == m'[k]
    {
      assert Get(m, k) == Get(m', k);
    }
  }

  /** The operations of a batch that go to one shard, in order. */
  function Routed(ops: seq<Op>, i: nat): seq<Op> {
    if ops == [] then []
    else
      var op := ops[|ops| - 1];
      var rest := Routed(ops[..|ops| - 1], i);
      if Route(op.key) == i then rest + [op] else rest
  }

  lemma {:induction false} RoutedKeepsLast(ops: seq<Op>, k: Bytes, i: nat)
    ensures LastOn(Routed(ops, i), k) == if Route(k) == i then LastOn(ops, k) else None
  {
    hide Route;
    if ops != [] {
      var op, rest := ops[|ops| - 1], Routed(ops[..|ops| - 1], i);
      RoutedKeepsLast(ops[..|ops| - 1], k, i);
      if Route(op.key) == i {
        assert (rest + [op])[..|rest + [op]| - 1] == rest;
      }
    }
  }

  // ---------------------------------------------------------------- shards

  /** Every key is in its own shard. */
  ghost predicate Homed(dbs: seq<Shard>) {
    forall i, k :: 0 <= i < |dbs| && k in dbs[i] ==> Route(k) == i
  }

  /** The one map that the shards make up. */
  ghost function Union(dbs: seq<Shard>): Shard {
    if dbs == [] then map[] else Union(dbs[..|dbs| - 1]) + dbs[|dbs| - 1]
  }

  lemma {:induction false} UnionAt(dbs: seq<Shard>, k: Bytes)
    requires Homed(dbs)
    ensures Get(Union(dbs), k) == if Route(k) < |dbs| then Get(dbs[Route(k)], k) else None
  {
    hide Route;
    if dbs != [] {
      UnionAt(dbs[..|dbs| - 1], k);
    }
  }

  /** Some shards have carried out their part of the queue. */
  ghost predicate PartlyApplied(dbs: seq<Shard>, dbs': seq<Shard>, ops: seq<Op>) {
    && |dbs'| == |dbs| == SHARDS
    && forall i :: 0 <= i < SHARDS ==> dbs'[i] == dbs[i] || dbs'[i] == Apply(Routed(ops, i), dbs[i])
  }

  lemma PartlyHomed(dbs: seq<Shard>, dbs': seq<Shard>, ops: seq<Op>)
    requires Homed(dbs) && PartlyApplied(dbs, dbs', ops)
    ensures Homed(dbs')
  {
    hide Route;
    forall i, k | 0 <= i < |dbs'| && k in dbs'[i]
      ensures Route(k) == i
    {
      assert Get(dbs'[i], k).Some?;
      ApplyAt(Routed(ops, i), dbs[i], k);
      RoutedKeepsLast(ops, k, i);
    }
  }

  /** Whatever part of the queue was carried out, carrying out all of it gives the same map. */
  lemma PartThenAll(dbs: seq<Shard>, dbs': seq<Shard>, ops: seq<Op>)
    requires Homed(dbs) && PartlyApplied(dbs, dbs', ops)
    ensures Apply(ops, Union(dbs')) == Apply(ops, Union(dbs))
  {
    hide Route, Union;
    PartlyHomed(dbs, dbs', ops);
    forall k
      ensures Get(Apply(ops, Union(dbs')), k) == Get(Apply(ops, Union(dbs)), k)
    {
      var i := Route(k);
      UnionAt(dbs, k);
      UnionAt(dbs', k);
      ApplyAt(ops, Union(dbs), k);
      ApplyAt(ops, Union(dbs'), k);
      ApplyAt(Routed(ops, i), dbs[i], k);
      RoutedKeepsLast(ops, k, i);
    }
    SameMap(Apply(ops, Union(dbs')), Apply(ops, Union(dbs)));
  }

  /** The shards' parts of the queue make up the queue. */
  lemma AllShardsApplied(dbs: seq<Shard>, dbs': seq<Shard>, ops: seq<Op>)
    requires Homed(dbs) && |dbs'| == |dbs| == SHARDS
    requires forall i :: 0 <= i < SHARDS ==> dbs'[i] == Apply(Routed(ops, i), dbs[i])
    ensures Union(dbs') == Apply(ops, Union(dbs))
  {
    hide Route, Union;
    PartlyHomed(dbs, dbs', ops);
    forall k
      ensures Get(Union(dbs'), k) == Get(Apply(ops, Union(dbs)), k)
    {
      var i := Route(k);
      UnionAt(dbs, k);
      UnionAt(dbs', k);
      ApplyAt(ops, Union(dbs), k);
      ApplyAt(Routed(ops, i), dbs[i], k);
      RoutedKeepsLast(ops, k, i);
    }
    SameMap(Union(dbs'), Apply(ops, Union(dbs)));
  }

  /** A direct write goes to one shard. */
  lemma WriteOne(dbs: seq<Shard>, op: Op)
    requires Homed(dbs) && |dbs| == SHARDS
    ensures var dbs' := dbs[Route(op.key) := ApplyOp(op, dbs[Route(op.key)])];
            Homed(dbs') && Union(dbs') == ApplyOp(op, Union(dbs))
  {
    hide Route, Union;
    var dbs' := dbs[Route(op.key) := ApplyOp(op, dbs[Route(op.key)])];
    assert Homed(dbs');
    forall k
      ensures Get(Union(dbs'), k) == Get(ApplyOp(op, Union(dbs)), k)
    {
      UnionAt(dbs, k);
      UnionAt(dbs', k);
    }
    SameMap(Union(dbs'), ApplyOp(op, Union(dbs)));
  }

  // ---------------------------------------------------------------- the store

  /** What becomes of one write to a shard; a Lost one is carried out but reported as failed. */
  datatype Fate = Written | Refused | Lost

  /** The shards before f have carried out their part of the queue; f has not or does not say so. */
  ghost predicate StoppedAt(dbs: seq<Shard>, dbs': seq<Shard>, ops: seq<Op>, fates: seq<Fate>, f: nat) {
    && f < |fates| == |dbs| == |dbs'| && !fates[f].Written?
    && (forall i :: 0 <= i < f ==> fates[i].Written? && dbs'[i] == Apply(Routed(ops, i), dbs[i]))
    && dbs'[f] == (if fates[f].Lost? then Apply(Routed(ops, f), dbs[f]) else dbs[f])
    && (forall i :: f < i < |dbs| ==> dbs'[i] == dbs[i])
  }

  class LevelDB {
    var dbs: seq<Shard>
    var batches: seq<seq<Op>>
    ghost var queued: seq<Op>   // all queued operations, in issue order
    ghost var base: Shard       // the contents when the queue was last applied, or written past

    ghost predicate Valid()
      reads this
    {
      && |dbs| == |batches| == SHARDS && Homed(dbs)
      && (forall i :: 0 <= i < SHARDS ==> batches[i] == Routed(queued, i))
      && Apply(queued, Union(dbs)) == Apply(queued, base)
    }

    ghost function Contents(): Shard
      reads this
    {
      Union(dbs)
    }

    constructor ()
      ensures Valid() && Contents() == map[] && queued == [] && base == map[]
    {
      hide Route;
      dbs, batches := seq(SHARDS, _ => map[]), seq(SHARDS, _ => []);
      queued, base := [], map[];
      new;
      EmptyUnion(dbs);
    }

    method Write(op: Op, fate: Fate) returns (ok: bool)
      requires Valid()
      modifies this`dbs, this`base
      ensures Valid() && ok == fate.Written?
      ensures Contents() == if fate.Refused? then old(Contents()) else ApplyOp(op, old(Contents()))
      ensures base == if fate.Refused? then old(base) else Contents()
    {
      hide Route, Apply, Union, Homed;
      var idx := ShardOf(op.key);
      if !fate.Refused? {
        WriteOne(dbs, op);
        dbs := dbs[idx := ApplyOp(op, dbs[idx])];
        base := Union(dbs);
      }
      ok := fate.Written?;
    }

    method PutKey(key: Bytes, value: Bytes, fate: Fate) returns (ok: bool)
      requires Valid()
      modifies this`dbs, this`base
      ensures Valid() && ok == (key != [] && fate.Written?)
      ensures Contents() == if key == [] || fate.Refused? then old(Contents()) else old(Contents())[key := value]
      ensures key == [] || fate.Refused? ==> base == old(base)
    {
      if key == [] {
        return false;
      }
      ok := Write(Put(key, value), fate);
    }

    method DelKey(key: Bytes, fate: Fate) returns (ok: bool)
      requires Valid()
      modifies this`dbs, this`base
      ensures Valid() && ok == (key != [] && fate.Written?)
      ensures Contents() == if key == [] || fate.Refused? then old(Contents()) else old(Contents()) - {key}
      ensures key == [] || fate.Refused? ==> base == old(base)
    {
      if key == [] {
        return false;
      }
      ok := Write(Delete(key), fate);
    }

    /** LevelDB::get; `readable` is false on an I/O error. */
    method GetKey(key: Bytes, readable: bool) returns (value: Option<Bytes>)
      requires Valid()
      ensures value == if readable then Get(Contents(), key) else None
    {
      hide Route, Apply;
      UnionAt(dbs, key);
      var idx := ShardOf(key);
      value := if readable && key in dbs[idx] then Some(dbs[idx][key]) else None;
    }

    method Queue(op: Op)
      requires Valid()
      modifies this`batches, this`queued
      ensures Valid() && queued == old(queued) + [op]
    {
      hide Route, Union, Homed, Routed, Apply;
      var idx := ShardOf(op.key);
      QueueOne(queued, op, Union(dbs));
      QueueOne(queued, op, base);
      batches := batches[idx := batches[idx] + [op]];
      queued := queued + [op];
    }

    method PutBatch(key: Bytes, value: Bytes) returns (ok: bool)
      requires Valid()
      modifies this`batches, this`queued
      ensures Valid() && ok == (key != [])
      ensures queued == if ok then old(queued) + [Put(key, value)] else old(queued)
    {
      ok := key != [];
      if ok {
        Queue(Put(key, value));
      }
    }

    method DelBatch(key: Bytes) returns (ok: bool)
      requires Valid()
      modifies this`batches, this`queued
      ensures Valid() && ok == (key != [])
      ensures queued == if ok then old(queued) + [Delete(key)] else old(queued)
    {
      ok := key != [];
      if ok {
        Queue(Delete(key));
      }
    }

    /**
     LevelDB::applyBatch. A failure on one shard leaves the queue as it is, although the shards
     before it have carried out their part. The first success after any number of failures, and
     any operations queued in between, leaves what carrying out the whole queue once would have.
     */
    method ApplyBatch(fates: seq<Fate>) returns (ok: bool)
      requires Valid() && |fates| == SHARDS
      modifies this
      ensures Valid()
      ensures ok == forall i :: 0 <= i < SHARDS ==> fates[i].Written?
      ensures ok ==> Contents() == Apply(old(queued), old(base)) && queued == [] && base == Contents()
      ensures !ok ==> queued == old(queued) && base == old(base)
      ensures !ok ==> exists f :: StoppedAt(old(dbs), dbs, old(queued), fates, f)
    {
      hide Route, Apply, Union, Homed, Routed;
      ghost var was := dbs;
      var i := 0;
      while i < SHARDS
        invariant 0 <= i <= SHARDS == |dbs|
        invariant forall j :: 0 <= j < i ==> fates[j].Written?
        invariant forall j :: 0 <= j < i ==> dbs[j] == Apply(Routed(queued, j), was[j])
        invariant forall j :: i <= j < SHARDS ==> dbs[j] == was[j]
        invariant batches == old(batches) && queued == old(queued) && base == old(base)
      {
        if !fates[i].Refused? {
          dbs := dbs[i := Apply(batches[i], dbs[i])];
        }
        if !fates[i].Written? {
          assert StoppedAt(was, dbs, queued, fates, i);
          PartlyHomed(was, dbs, queued);
          PartThenAll(was, dbs, queued);
          return false;
        }
        i := i + 1;
      }
      PartlyHomed(was, dbs, queued);
      AllShardsApplied(was, dbs, queued);
      batches := ClearAll(batches);
      queued, base := [], Union(dbs);
      ok := true;
    }
  }

  lemma QueueOne(ops: seq<Op>, op: Op, m: Shard)
    ensures Apply(ops + [op], m) == ApplyOp(op, Apply(ops, m))
    ensures forall i: nat :: Routed(ops + [op], i) == if Route(op.key) == i then Routed(ops, i) + [op] else Routed(ops, i)
  {
    hide Route;
    assert (ops + [op])[..|ops + [op]| - 1] == ops;
  }

  /** The second loop of applyBatch. */
  method ClearAll(batches: seq<seq<Op>>) returns (r: seq<seq<Op>>)
    ensures |r| == |batches| && forall i :: 0 <= i < |r| ==> r[i] == Routed([], i)
  {
    r := batches;
    var i := 0;
    while i < |r|
      invariant i <= |r| == |batches|
      invariant forall j :: 0 <= j < i ==> r[j] == []
    {
      r := r[i := []];
      i := i + 1;
    }
  }

  lemma {:induction false} EmptyUnion(dbs: seq<Shard>)
    requires forall i :: 0 <= i < |dbs| ==> dbs[i] == map[]
    ensures Homed(dbs) && Union(dbs) == map[]
  {
    if dbs != [] {
      EmptyUnion(dbs[..|dbs| - 1]);
    }
  }
}
