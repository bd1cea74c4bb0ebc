/**
 * The two string routines of `NatasLevel11` in lib/natas.rb: the
 * repeating-key XOR `xor_encrypt`, and the search in `exec` for the
 * repeating pattern of a recovered key. The strings involved are binary
 * (a Base64-decoded cookie, ASCII JSON), so they are modelled as bytes.
 */
module Level11 {
  import opened Wrappers

  type Byte = bv8

  /** The repeating-key XOR of `data` with `key`. */
  function Xored(data: seq<Byte>, key: seq<Byte>): (r: seq<Byte>)
    requires key != [] || data == []
    ensures |r| == |data|
    ensures forall i :: 0 <= i < |data| ==> r[i] == data[i] ^ key[i % |key|]
  {
    if data == [] then []
    else
      var init := data[..|data| - 1];
      var last := |data| - 1;
      var r := Xored(init, key) + [data[last] ^ key[last % |key|]];
      assert forall i :: 0 <= i < last ==> r[i] == Xored(init, key)[i] && init[i] == data[i];
      r
  }

  /** XOR with the same key undoes itself. */
  lemma XoredTwice(data: seq<Byte>, key: seq<Byte>)
    requires key != []
    ensures Xored(Xored(data, key), key) == data
  {
    var once := Xored(data, key);
    var twice := Xored(once, key);
    forall i | 0 <= i < |data| ensures twice[i] == data[i] {
      assert twice[i] == (data[i] ^ key[i % |key|]) ^ key[i % |key|];
    }
  }

  lemma ModBelow(i: nat, n: nat)
    requires i < n
    ensures i % n == i
  {
  }

  /** XOR of plaintext and ciphertext gives back the key stream (how `exec` recovers the key). */
  lemma XoredRecoversKey(data: seq<Byte>, key: seq<Byte>)
    requires key != [] && data != []
    ensures |Xored(Xored(data, key), data)| == |data|
    ensures forall i :: 0 <= i < |data| ==> Xored(Xored(data, key), data)[i] == key[i % |key|]
  {
    var c := Xored(data, key);
    var stream := Xored(c, data);
    forall i | 0 <= i < |data| ensures stream[i] == key[i % |key|] {
      ModBelow(i, |data|);
      var k := key[i % |key|];
      assert c[i] == data[i] ^ k;
      assert stream[i] == c[i] ^ data[i % |data|];
    }
  }

  /**
   * `xor_encrypt(data, key)`: byte i of the output is byte i of `data` xor
   * byte `i % key.length` of `key`. With an empty key and non-empty data the
   * first `i % key.length` raises `ZeroDivisionError`.
   */
  method XorEncrypt(data: seq<Byte>, key: seq<Byte>) returns (r: Result<seq<Byte>, string>)
    ensures r.Failure? <==> key == [] && data != []
    ensures r.Failure? ==> r.error == "divided by 0"
    ensures r.Success? ==> |r.value| == |data|
    ensures r.Success? ==> forall i :: 0 <= i < |data| ==> r.value[i] == data[i] ^ key[i % |key|]
    ensures r.Success? ==> r.value == Xored(data, key)
  {
    if key == [] && data != [] {
      return Failure("divided by 0");
    }
    var out: seq<Byte> := [];
    var i := 0;
    while i < |data|
      invariant 0 <= i <= |data|
      invariant out == Xored(data[..i], key)
    {
      assert data[..i + 1][..i] == data[..i];
      out := out + [data[i] ^ key[i % |key|]];
      i := i + 1;
    }
    assert data[..|data|] == data;
    return Success(out);
  }

  /**
   * Ruby's `str[a..b]` for an inclusive range with `0 <= a`: nil when `a` is
   * past the end; otherwise the characters from `a` to `b`, where a negative
   * `b` counts from the end, cut at the end and empty when `b` is below `a`.
   */
  function RangeSlice(s: seq<Byte>, a: nat, b: int): (r: Option<seq<Byte>>)
    ensures r.None? <==> a > |s|
    ensures r.Some? ==> |r.value| <= |s| - a && r.value == s[a..a + |r.value|]
    ensures var e := if b < 0 then b + |s| else b;
            r.Some? ==> |r.value| == if e < a then 0 else if e < |s| then e - a + 1 else |s| - a
  {
    var e := if b < 0 then b + |s| else b;
    if a > |s| then None
    else if e < a then Some([])
    else if e < |s| then Some(s[a..e + 1])
    else Some(s[a..])
  }

  /** The first `n` bytes of `key` occur again right after themselves. */
  predicate Repeats(key: seq<Byte>, n: nat) {
    0 < n && 2 * n <= |key| && key[n..2 * n] == key[..n]
  }

  /**
   * What the pattern search promises: a prefix of the key that is either the
   * whole key or the shortest prefix repeated right after itself.
   */
  ghost predicate IsPatternOf(key: seq<Byte>, pattern: seq<Byte>) {
    && |pattern| <= |key| && pattern == key[..|pattern|]
    && (|pattern| == |key| || Repeats(key, |pattern|))
    && (forall n :: 0 < n < |pattern| ==> !Repeats(key, n))
  }

  /** The test of the loop at step `i` succeeds exactly when the prefix of length i + 1 repeats. */
  lemma BreakTest(key: seq<Byte>, i: nat)
    requires i < |key|
    ensures (RangeSlice(key, i + 1, i + (i + 1)) == Some(key[..i + 1])) <==> Repeats(key, i + 1)
  {
    var r := RangeSlice(key, i + 1, i + (i + 1));
    if Repeats(key, i + 1) {
      assert r == Some(key[i + 1..2 * (i + 1)]);
    }
  }

  /**
   * The pattern search of `NatasLevel11#exec`: grows a prefix of `key` byte by
   * byte and stops as soon as the prefix repeats right after itself; when it
   * never does, the whole key is the pattern.
   */
  method KeyPattern(key: seq<Byte>) returns (pattern: seq<Byte>)
    ensures IsPatternOf(key, pattern)
    ensures key != [] ==> pattern != []
  {
    pattern := [];
    var i := 0;
    while i < |key|
      invariant 0 <= i <= |key|
      invariant pattern == key[..i]
      invariant forall n :: 0 < n <= i ==> !Repeats(key, n)
    {
      pattern := pattern + [key[i]];
      assert pattern == key[..i + 1];
      BreakTest(key, i);
      if RangeSlice(key, i + 1, i + |pattern|) == Some(pattern) {
        return;
      }
      i := i + 1;
    }
  }

  // ------------------------------------------------------------------
  // The search stops at the first prefix that repeats once; that prefix
  // need not be a period of the key, and encrypting with it then differs
  // from encrypting with the key.

  /** `key[j] == key[j % n]` for every j: the key is its first `n` bytes repeated. */
  predicate IsPeriod(key: seq<Byte>, n: nat) {
    0 < n && forall j :: 0 <= j < |key| ==> key[j] == key[j % n]
  }

  /** The key `aabaab`. */
  const SampleKey: seq<Byte> := [0x61, 0x61, 0x62, 0x61, 0x61, 0x62]

  /**
   * On `aabaab` the search as written returns `a`, which is not a period (the
   * key's period is `aab`), so encrypting with it differs from encrypting
   * with the key.
   */
  lemma PatternNotPeriod(pattern: seq<Byte>)
    requires IsPatternOf(SampleKey, pattern)
    ensures pattern == [0x61] && !IsPeriod(SampleKey, |pattern|)
    ensures IsPeriod(SampleKey, 3) && !IsPeriod(SampleKey, 1) && !IsPeriod(SampleKey, 2)
    ensures forall d :: |d| >= 3 ==> Xored(d, pattern) != Xored(d, SampleKey)
  {
    SamplePattern(pattern);
    forall d: seq<Byte> | |d| >= 3 ensures Xored(d, pattern) != Xored(d, SampleKey) {
      SampleXorDiffers(d, pattern);
    }
  }

  /** The pattern of `aabaab` and the periods of that key. */
  lemma SamplePattern(pattern: seq<Byte>)
    requires IsPatternOf(SampleKey, pattern)
    ensures pattern == [0x61]
    ensures IsPeriod(SampleKey, 3) && !IsPeriod(SampleKey, 1) && !IsPeriod(SampleKey, 2)
  {
    assert Repeats(SampleKey, 1) by { assert SampleKey[1..2] == SampleKey[..1]; }
    assert SampleKey[2 % 1] != SampleKey[2];
    assert SampleKey[2 % 2] != SampleKey[2];
    forall j | 0 <= j < 6 ensures SampleKey[j] == SampleKey[j % 3] {
    }
  }

  /** Byte 2 of the data is xored with `a` under the pattern and with `b` under the key. */
  lemma SampleXorDiffers(d: seq<Byte>, pattern: seq<Byte>)
    requires |d| >= 3 && pattern == [0x61]
    ensures Xored(d, pattern) != Xored(d, SampleKey)
  {
    var x, y := Xored(d, pattern), Xored(d, SampleKey);
    assert x[2] == d[2] ^ 0x61 && y[2] == d[2] ^ 0x62;
    assert x[2] != y[2];
  }

  /**
   * The search the loop evidently intends: the shortest prefix of `key` that
   * repeated gives the whole key.
   */
  method KeyPeriod(key: seq<Byte>) returns (pattern: seq<Byte>)
    ensures |pattern| <= |key| && pattern == key[..|pattern|]
    ensures key != [] ==> IsPeriod(key, |pattern|)
    ensures key != [] ==> forall j :: 0 <= j < |key| ==> key[j] == pattern[j % |pattern|]
    ensures forall n :: 0 < n < |pattern| ==> !IsPeriod(key, n)
    ensures key == [] ==> pattern == []
  {
    if key == [] {
      return [];
    }
    var n := 1;
    while n < |key| && !IsPeriod(key, n)
      invariant 1 <= n <= |key|
      invariant forall m :: 0 < m < n ==> !IsPeriod(key, m)
    {
      n := n + 1;
    }
    if n == |key| {
      forall j | 0 <= j < |key| ensures key[j] == key[j % n] {
        ModBelow(j, n);
      }
    }
    pattern := key[..n];
    forall j | 0 <= j < |key| ensures key[j] == pattern[j % n] {
      assert key[j] == key[j % n];
    }
  }
}
