/** Header assembly and share check of software/common/bitcoin.c and software/application/stratum.c. */
module BlockHeader {
  import opened Words
  import opened Positional
  import opened Sha256Message
  import opened Sha256Software
  import opened ShareHash

  /** The fields of a pool job that enter the header. */
  datatype HeaderFields = HeaderFields(version: seq<Byte>, prev: seq<Byte>, bits: seq<Byte>, time: seq<Byte>,
                                       coin1: seq<Byte>, coin2: seq<Byte>, branches: seq<seq<Byte>>)

  predicate FieldsOk(f: HeaderFields) {
    && |f.version| == 4 && |f.prev| == 32 && |f.bits| == 4 && |f.time| == 4
    && forall i :: 0 <= i < |f.branches| ==> |f.branches[i]| == 32
  }

  /** The Merkle root above a leaf, along the branches. */
  function MerkleRoot(leaf: seq<Byte>, branches: seq<seq<Byte>>): (r: seq<Byte>)
    requires |leaf| == 32
    ensures |r| == 32
  {
    if branches == [] then leaf
    else Sha256d(MerkleRoot(leaf, branches[..|branches| - 1]) + branches[|branches| - 1])
  }

  /** Each group of four bytes reversed: a sequence of big-endian words, serialized. */
  function SwapWords(s: seq<Byte>): (r: seq<Byte>)
    requires |s| % 4 == 0
    ensures |r| == |s|
  {
    seq(|s|, i requires 0 <= i < |s| => s[i / 4 * 4 + (3 - i % 4)])
  }

  /** The header of a job and two extranonces, nonce bytes zero. */
  function Header(f: HeaderFields, extra1: seq<Byte>, extra2: seq<Byte>): (h: seq<Byte>)
    requires FieldsOk(f)
    ensures |h| == 80
  {
    SwapWords(f.version) + SwapWords(f.prev)
    + MerkleRoot(Sha256d(f.coin1 + extra1 + extra2 + f.coin2), f.branches)
    + SwapWords(f.time) + SwapWords(f.bits) + [0, 0, 0, 0]
  }

  /** `bitcoin_build_header`: four streamed updates, the branch loop, and the byte shuffles. */
  method BuildHeader(f: HeaderFields, extra1: seq<Byte>, extra2: seq<Byte>) returns (h: seq<Byte>)
    requires FieldsOk(f)
    ensures h == Header(f, extra1, extra2)
  {
    hide Sha256, Sha256d, MerkleRoot, SwapWords;
    var root := CoinbaseHash(f.coin1, extra1, extra2, f.coin2);
    root := ClimbBranches(root, f.branches);
    var header := new Byte[80](_ => 0);
    ReverseInto(header, 0, f.version);
    ghost var h1 := header[..];
    assert h1 == SwapWords(f.version) + Zeros(76);
    ReverseInto(header, 68, f.time);
    ghost var h2 := header[..];
    ReverseInto(header, 72, f.bits);
    ghost var h3 := header[..];
    FieldsInPlace(h1, h2, h3, SwapWords(f.version), SwapWords(f.time), SwapWords(f.bits));
    ShuffleInto(header, f.prev, root);
    h := header[..];
    assert h[..4] == h3[..4] && h[68..] == h3[68..];
    assert h == h[..4] + h[4..36] + h[36..68] + h[68..];
  }

  lemma FieldsInPlace(h1: seq<Byte>, h2: seq<Byte>, h3: seq<Byte>, version: seq<Byte>, time: seq<Byte>, bits: seq<Byte>)
    requires |h1| == |h2| == |h3| == 80 && |version| == |time| == |bits| == 4
    requires h1 == version + Zeros(76) && h2 == h1[..68] + time + h1[72..] && h3 == h2[..72] + bits + h2[76..]
    ensures h3[..4] == version && h3[68..] == time + bits + [0, 0, 0, 0]
  {
    assert h2[76..] == h1[76..] == [0, 0, 0, 0];
    assert h2[..72] == h1[..68] + time;
    assert h3[68..72] == time && h3[72..76] == bits && h3[76..] == h2[76..];
    assert h3[68..] == h3[68..72] + h3[72..76] + h3[76..];
  }

  /** Four bytes of a field, reversed. */
  method ReverseInto(header: array<Byte>, at: nat, field: seq<Byte>)
    requires at + 4 <= header.Length && |field| == 4
    modifies header
    ensures header[..] == old(header[..at]) + SwapWords(field) + old(header[at + 4..])
  {
    for i := 0 to 4
      invariant header[..at] == old(header[..at]) && header[at + 4..] == old(header[at + 4..])
      invariant header[at..at + i] == SwapWords(field)[..i]
    {
      header[at + i] := field[3 - i];
      assert SwapWords(field)[i] == field[3 - i];
    }
    assert header[..] == header[..at] + header[at..at + 4] + header[at + 4..];
  }

  /** `header[4+i] = prev[i^3]`, and the root behind it. */
  method ShuffleInto(header: array<Byte>, prev: seq<Byte>, root: seq<Byte>)
    requires header.Length == 80 && |prev| == 32 && |root| == 32
    modifies header
    ensures header[..4] == old(header[..4]) && header[68..] == old(header[68..])
    ensures header[4..36] == SwapWords(prev) && header[36..68] == root
  {
    for i := 0 to 32
      invariant header[..4] == old(header[..4]) && header[68..] == old(header[68..])
      invariant header[4..4 + i] == SwapWords(prev)[..i] && header[36..36 + i] == root[..i]
    {
      header[4 + i] := prev[i / 4 * 4 + (3 - i % 4)];
      header[36 + i] := root[i];
    }
  }

  method CoinbaseHash(coin1: seq<Byte>, extra1: seq<Byte>, extra2: seq<Byte>,
                      coin2: seq<Byte>) returns (root: seq<Byte>)
    ensures root == Sha256d(coin1 + extra1 + extra2 + coin2)
  {
    hide Sha256, HashBlocks, Context.Valid;
    var c := new Context();
    c.Update(coin1);
    c.Update(extra1);
    c.Update(extra2);
    c.Update(coin2);
    assert c.message == coin1 + extra1 + extra2 + coin2;
    root := c.Final();
    root := Hash(root);
  }

  method ClimbBranches(leaf: seq<Byte>, branches: seq<seq<Byte>>) returns (root: seq<Byte>)
    requires |leaf| == 32
    ensures root == MerkleRoot(leaf, branches)
  {
    hide Sha256d;
    root := leaf;
    for i := 0 to |branches|
      invariant root == MerkleRoot(leaf, branches[..i])
    {
      assert branches[..i + 1][..i] == branches[..i];
      root := DoubleHash(root + branches[i]);
    }
    assert branches[..|branches|] == branches;
  }

  // ----- what is where in a header -----

  /** Four bytes of a field, last byte first. */
  function Reversed4(s: seq<Byte>): seq<Byte>
    requires |s| == 4
  {
    [s[3], s[2], s[1], s[0]]
  }

  /** Word k of the previous block's hash is in its place, bytes reversed. */
  predicate PrevWord(h: seq<Byte>, prev: seq<Byte>, k: nat)
    requires |h| == 80 && |prev| == 32
  {
    k < 8 && h[4 + 4 * k..8 + 4 * k] == Reversed4(prev[4 * k..4 * k + 4])
  }

  /** The header outside the Merkle root, by position. */
  ghost predicate LaidOut(h: seq<Byte>, version: seq<Byte>, prev: seq<Byte>, time: seq<Byte>, bits: seq<Byte>) {
    && |h| == 80 && |version| == 4 && |prev| == 32 && |time| == 4 && |bits| == 4
    && h[0..4] == Reversed4(version) && (forall k :: 0 <= k < 8 ==> PrevWord(h, prev, k))
    && h[68..72] == Reversed4(time) && h[72..76] == Reversed4(bits) && h[76..80] == [0, 0, 0, 0]
  }

  lemma HeaderLayout(f: HeaderFields, extra1: seq<Byte>, extra2: seq<Byte>)
    requires FieldsOk(f)
    ensures LaidOut(Header(f, extra1, extra2), f.version, f.prev, f.time, f.bits)
  {
    hide MerkleRoot, Sha256d, SwapWords;
    var h := Header(f, extra1, extra2);
    SwappedWord(f.version, 0);
    SwappedWord(f.time, 0);
    SwappedWord(f.bits, 0);
    assert f.version[0..4] == f.version && f.time[0..4] == f.time && f.bits[0..4] == f.bits;
    assert SwapWords(f.version)[0..4] == SwapWords(f.version);
    assert SwapWords(f.time)[0..4] == SwapWords(f.time) && SwapWords(f.bits)[0..4] == SwapWords(f.bits);
    assert h[4..36] == SwapWords(f.prev);
    forall k | 0 <= k < 8
      ensures PrevWord(h, f.prev, k)
    {
      SwappedWord(f.prev, k);
      assert h[4 + 4 * k..8 + 4 * k] == h[4..36][4 * k..4 * k + 4];
    }
  }

  lemma SwappedWord(s: seq<Byte>, k: nat)
    requires |s| % 4 == 0 && 4 * k + 4 <= |s|
    ensures SwapWords(s)[4 * k..4 * k + 4] == Reversed4(s[4 * k..4 * k + 4])
  {
    var r := SwapWords(s);
    assert r[4 * k] == s[4 * k + 3] && r[4 * k + 1] == s[4 * k + 2];
    assert r[4 * k + 2] == s[4 * k + 1] && r[4 * k + 3] == s[4 * k];
  }

  /** A path of hashes from a coinbase transaction up along the branches: each node is the left half of the pair that is
      hashed next, and the branch is the right half. */
  ghost predicate MerklePath(path: seq<seq<Byte>>, coinbase: seq<Byte>, branches: seq<seq<Byte>>) {
    && |path| == |branches| + 1 && path[0] == Sha256d(coinbase)
    && forall k :: 0 <= k < |branches| ==> path[k + 1] == Sha256d(path[k] + branches[k])
  }

  lemma {:induction false} RootHasPath(coinbase: seq<Byte>, branches: seq<seq<Byte>>) returns (path: seq<seq<Byte>>)
    ensures MerklePath(path, coinbase, branches) && path[|branches|] == MerkleRoot(Sha256d(coinbase), branches)
  {
    hide Sha256d;
    if branches == [] {
      path := [Sha256d(coinbase)];
    } else {
      var n := |branches| - 1;
      var lower := RootHasPath(coinbase, branches[..n]);
      path := lower + [Sha256d(lower[n] + branches[n])];
      forall k | 0 <= k < |branches|
        ensures path[k + 1] == Sha256d(path[k] + branches[k])
      {
        assert k < n ==> branches[..n][k] == branches[k];
      }
    }
  }

  ghost predicate RootIs(h: seq<Byte>, path: seq<seq<Byte>>) {
    |h| == 80 && path != [] && h[36..68] == path[|path| - 1]
  }

  /** The root in the header is the end of the path from the coinbase: first part, extranonce 1, extranonce 2, second
      part. */
  lemma RootInHeader(f: HeaderFields, extra1: seq<Byte>, extra2: seq<Byte>) returns (path: seq<seq<Byte>>)
    requires FieldsOk(f)
    ensures MerklePath(path, f.coin1 + extra1 + extra2 + f.coin2, f.branches)
    ensures RootIs(Header(f, extra1, extra2), path)
  {
    hide MerkleRoot, Sha256d, SwapWords;
    path := RootHasPath(f.coin1 + extra1 + extra2 + f.coin2, f.branches);
  }

  // ----- the firmware's recheck of a result -----

  /** The byte-by-byte comparison of `service_results`. */
  method CheckShare(header: seq<Byte>, nonce: Word, target: Target) returns (valid: bool)
    requires |header| == 80
    ensures valid <==> IsShare(header, nonce, target)
  {
    hide Sha256d, Value, LeValue, BytesOfWords, Reverse;
    var digest := DoubleHash(WithNonce(header, nonce));
    valid := AtOrBelow(digest, BytesOfWords(target));
    ValueOfWords(target);
    LeValueReverses(256, digest);
  }

  /** Most significant byte first: the digest is read from its end. */
  method AtOrBelow(digest: seq<Byte>, target: seq<Byte>) returns (valid: bool)
    requires |digest| == |target|
    ensures valid <==> Value(256, Reverse(digest)) <= Value(256, target)
  {
    hide Value;
    var n := |digest|;
    ghost var d := Reverse(digest);
    for i := 0 to n
      invariant Value(256, d[..i]) == Value(256, target[..i])
    {
      assert d[i] == digest[n - 1 - i];
      PrefixStep(d, target, i);
      if digest[n - 1 - i] < target[i] {
        PrefixDecides(d, target, i + 1);
        return true;
      }
      if digest[n - 1 - i] > target[i] {
        PrefixDecides(target, d, i + 1);
        return false;
      }
    }
    assert d[..n] == d && target[..n] == target;
    valid := true;
  }

  lemma PrefixStep(d: seq<nat>, t: seq<nat>, i: nat)
    requires i < |d| == |t| && Value(256, d[..i]) == Value(256, t[..i])
    ensures Value(256, d[..i + 1]) + t[i] == Value(256, t[..i + 1]) + d[i]
  {
    assert d[..i + 1] == d[..i] + [d[i]] && t[..i + 1] == t[..i] + [t[i]];
    ValueSnoc(256, d[..i], d[i]);
    ValueSnoc(256, t[..i], t[i]);
  }

  /** A smaller prefix stays smaller, whatever bytes follow. */
  lemma {:induction false} PrefixDecides(d: seq<nat>, t: seq<nat>, i: nat)
    requires i <= |d| == |t| && Digits(256, d) && Digits(256, t) && Value(256, d[..i]) < Value(256, t[..i])
    ensures Value(256, d) < Value(256, t)
    decreases |d| - i
  {
    hide Value;
    if i == |d| {
      assert d[..i] == d && t[..i] == t;
    } else {
      assert d[..i + 1] == d[..i] + [d[i]] && t[..i + 1] == t[..i] + [t[i]];
      ValueSnoc(256, d[..i], d[i]);
      ValueSnoc(256, t[..i], t[i]);
      CompareDigit(256, Value(256, d[..i]), Value(256, t[..i]), d[i], t[i]);
      PrefixDecides(d, t, i + 1);
    }
  }
}
