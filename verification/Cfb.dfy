/** AES-256 in CFB128 mode: the mode of NIST SP 800-38A section 6.3, and the resumable operation over it. */
module Cfb {
  import opened Bytes

  type Block = s: seq<byte> | |s| == 16 witness seq(16, _ => 0)

  /** The block cipher under one key. */
  type Cipher = Block -> Block

  function XorBytes(a: seq<byte>, b: seq<byte>): (r: seq<byte>)
    requires |a| <= |b|
    ensures |r| == |a| && forall i :: 0 <= i < |r| ==> r[i] == Xor(a[i], b[i])
  {
    seq(|a|, i requires 0 <= i < |a| => Xor(a[i], b[i]))
  }

  /** Each plaintext segment is the ciphertext segment XORed with the encryption of the one before it. */
  function Decrypt(cipher: Cipher, iv: Block, c: seq<byte>): (p: seq<byte>)
    ensures |p| == |c|
    decreases |c|
  {
    if |c| <= 16 then XorBytes(c, cipher(iv))
    else XorBytes(c[..16], cipher(iv)) + Decrypt(cipher, c[..16], c[16..])
  }

  /** The cipher input for segment `k`: the IV, then each preceding ciphertext segment. */
  function Feedback(iv: Block, c: seq<byte>, k: nat): Block
    requires 16 * k <= |c|
  {
    if k == 0 then iv else c[16 * k - 16..16 * k]
  }

  lemma FeedbackShift(iv: Block, c: seq<byte>, k: nat)
    requires 16 <= |c| && 1 <= k && 16 * k <= |c|
    ensures Feedback(c[..16], c[16..], k - 1) == Feedback(iv, c, k)
  {
    if k > 1 { SliceOfSlice(c, 16, |c|, 16 * (k - 1) - 16, 16 * (k - 1)); }
  }

  lemma {:induction false} DecryptAt(cipher: Cipher, iv: Block, c: seq<byte>, i: nat)
    requires i < |c|
    ensures Decrypt(cipher, iv, c)[i] == Xor(c[i], cipher(Feedback(iv, c, i / 16))[i % 16])
    decreases |c|
  {
    hide Feedback;
    if i < 16 {
      assert Feedback(iv, c, 0) == iv by { FirstFeedback(iv, c); }
    } else {
      DecryptAt(cipher, c[..16], c[16..], i - 16);
      BlockBack(i);
      FeedbackShift(iv, c, i / 16);
    }
  }

  /** A plaintext bit is set exactly when the ciphertext bit differs from the bit of the encrypted segment before it. */
  lemma DecryptBit(cipher: Cipher, iv: Block, c: seq<byte>, i: nat, bit: nat)
    requires i < |c| && bit < 8
    ensures var before := if i < 16 then iv else c[i / 16 * 16 - 16..i / 16 * 16];
            Decrypt(cipher, iv, c)[i] / Pow2(bit) % 2 == 1
            <==> c[i] / Pow2(bit) % 2 != cipher(before)[i % 16] / Pow2(bit) % 2
  {
    hide Decrypt;
    DecryptAt(cipher, iv, c, i);
    XorBit(c[i], cipher(Feedback(iv, c, i / 16))[i % 16], bit);
  }

  lemma BlockBack(i: nat)
    requires i >= 16
    ensures (i - 16) / 16 == i / 16 - 1 && (i - 16) % 16 == i % 16
  {
  }

  lemma FirstFeedback(iv: Block, c: seq<byte>)
    ensures Feedback(iv, c, 0) == iv
  {
  }

  // ---- the resumable operation

  /** The segment being decrypted: its cipher input, and the ciphertext bytes taken from it so far. */
  datatype Operation = Operation(feedback: Block, seen: seq<byte>)

  function Feed(cipher: Cipher, op: Operation, c: byte): (r: (Operation, byte))
    requires |op.seen| < 16
    ensures |r.0.seen| < 16
  {
    var seen := op.seen + [c];
    (if |seen| == 16 then Operation(seen, []) else Operation(op.feedback, seen),
     Xor(c, cipher(op.feedback)[|op.seen|]))
  }

  function Update(cipher: Cipher, op: Operation, input: seq<byte>): (r: (Operation, seq<byte>))
    requires |op.seen| < 16
    ensures |r.0.seen| < 16 && |r.1| == |input|
    decreases |input|
  {
    if input == [] then (op, [])
    else
      var (next, p) := Feed(cipher, op, input[0]);
      var (last, rest) := Update(cipher, next, input[1..]);
      (last, [p] + rest)
  }

  /** The operation has consumed exactly the first `at` bytes of `c`. */
  ghost predicate StandsAt(op: Operation, iv: Block, c: seq<byte>, at: nat)
  {
    && at <= |c|
    && op.feedback == Feedback(iv, c, at / 16)
    && op.seen == c[at / 16 * 16..at]
  }

  lemma FeedStands(cipher: Cipher, op: Operation, iv: Block, c: seq<byte>, k: nat, r: nat)
    requires 16 * k + r < |c| && r < 16
    requires op.feedback == Feedback(iv, c, k) && op.seen == c[16 * k..16 * k + r]
    ensures StandsAt(Feed(cipher, op, c[16 * k + r]).0, iv, c, 16 * k + r + 1)
  {
    assert op.seen + [c[16 * k + r]] == c[16 * k..16 * k + r + 1];
    if r == 15 {
      assert (16 * k + r + 1) / 16 == k + 1;
    } else {
      assert (16 * k + r + 1) / 16 == k;
    }
  }

  lemma FeedAdvances(cipher: Cipher, op: Operation, iv: Block, c: seq<byte>, at: nat)
    requires StandsAt(op, iv, c, at) && at < |c|
    ensures StandsAt(Feed(cipher, op, c[at]).0, iv, c, at + 1)
    ensures Feed(cipher, op, c[at]).1 == Decrypt(cipher, iv, c)[at]
  {
    hide Decrypt;
    DecryptAt(cipher, iv, c, at);
    FeedStands(cipher, op, iv, c, at / 16, at % 16);
  }

  /** Splits the first element off a slice. */
  lemma SliceHead<T>(s: seq<T>, at: nat, slice: seq<T>)
    requires slice != [] && at + |slice| <= |s| && slice == s[at..at + |slice|]
    ensures slice[0] == s[at] && slice[1..] == s[at + 1..at + 1 + |slice[1..]|]
  {
  }

  lemma SliceCons<T>(s: seq<T>, at: nat, tail: seq<T>)
    requires at + 1 + |tail| <= |s| && tail == s[at + 1..at + 1 + |tail|]
    ensures [s[at]] + tail == s[at..at + 1 + |tail|]
  {
  }

  lemma UpdateNothing(cipher: Cipher, op: Operation)
    requires |op.seen| < 16
    ensures Update(cipher, op, []) == (op, [])
  {
  }

  lemma UpdateHead(cipher: Cipher, op: Operation, input: seq<byte>)
    requires input != [] && |op.seen| < 16
    ensures var next := Feed(cipher, op, input[0]);
            var rest := Update(cipher, next.0, input[1..]);
            Update(cipher, op, input) == (rest.0, [next.1] + rest.1)
  {
  }

  /** A run of updates decrypts the same bytes as one pass, from wherever the operation stands. */
  lemma {:induction false} UpdateAdvances(cipher: Cipher, op: Operation, iv: Block, c: seq<byte>, at: nat, input: seq<byte>)
    requires StandsAt(op, iv, c, at) && at + |input| <= |c| && input == c[at..at + |input|] && |op.seen| < 16
    ensures var r := Update(cipher, op, input);
            StandsAt(r.0, iv, c, at + |input|) && r.1 == Decrypt(cipher, iv, c)[at..at + |input|]
    decreases |input|
  {
    hide *;
    if input == [] {
      assert Update(cipher, op, input) == (op, []) by { UpdateNothing(cipher, op); }
    } else {
      SliceHead(c, at, input);
      FeedAdvances(cipher, op, iv, c, at);
      UpdateHead(cipher, op, input);
      var next := Feed(cipher, op, c[at]).0;
      UpdateAdvances(cipher, next, iv, c, at + 1, input[1..]);
      SliceCons(Decrypt(cipher, iv, c), at, Update(cipher, next, input[1..]).1);
    }
  }

  lemma {:induction false} UpdateConcat(cipher: Cipher, op: Operation, a: seq<byte>, b: seq<byte>)
    requires |op.seen| < 16
    ensures var (mid, p) := Update(cipher, op, a);
            var (last, q) := Update(cipher, mid, b);
            Update(cipher, op, a + b) == (last, p + q)
    decreases |a|
  {
    if a == [] {
      assert a + b == b;
      assert [] + Update(cipher, op, b).1 == Update(cipher, op, b).1;
    } else {
      assert (a + b)[1..] == a[1..] + b;
      var (next, p0) := Feed(cipher, op, a[0]);
      UpdateConcat(cipher, next, a[1..], b);
      var (mid, p) := Update(cipher, next, a[1..]);
      var (last, q) := Update(cipher, mid, b);
      assert [p0] + (p + q) == ([p0] + p) + q;
    }
  }

  const CHUNK := 4096  // bytes handed to the provider at a time

  class Aes256Cfb128 {
    const cipher: Cipher
    var iv: Block
    var operation: Operation
    var pendingReset: bool

    ghost predicate Valid()
      reads this
    {
      pendingReset || |operation.seen| < 16
    }

    /** The operation the next decrypt continues: a fresh one when a reset is pending. */
    ghost function Current(): Operation
      reads this
    {
      if pendingReset then Operation(iv, []) else operation
    }

    constructor (cipher: Cipher, iv: Block)
      ensures Valid() && this.cipher == cipher && Current() == Operation(iv, [])
    {
      this.cipher, this.iv := cipher, iv;
      operation, pendingReset := Operation(iv, []), true;
    }

    method Reset(iv: Block)
      modifies this
      ensures Valid() && Current() == Operation(iv, [])
    {
      this.iv := iv;
      pendingReset := true;
    }

    /** Decrypts in provider-sized chunks; chunking is invisible. */
    method Decrypt(input: seq<byte>) returns (output: seq<byte>)
      requires Valid()
      modifies this
      ensures Valid() && |old(Current()).seen| < 16
      ensures (Current(), output) == Update(cipher, old(Current()), input)
    {
      hide Update;
      ghost var op := Current();
      if pendingReset {
        operation := Operation(iv, []);
        pendingReset := false;
      }
      output := [];
      var offset := 0;
      UpdateNothing(cipher, op);
      assert input[..0] == [];
      while offset < |input|
        invariant offset <= |input| && !pendingReset && |operation.seen| < 16
        invariant (operation, output) == Update(cipher, op, input[..offset])
      {
        var count := Min(CHUNK, |input| - offset);
        var chunk := input[offset..offset + count];
        UpdateConcat(cipher, op, input[..offset], chunk);
        assert input[..offset] + chunk == input[..offset + count];
        var (next, written) := Update(cipher, operation, chunk);
        operation := next;
        output := output + written;
        offset := offset + count;
      }
      assert input[..offset] == input;
    }
  }
}
