/** AES in CFB mode as a stream cipher: the shift register and offset survive between calls. */
module AesCfb {
  import opened Bytes

  type Block = s: seq<bv8> | |s| == 16 witness seq(16, i => 0 as bv8)

  /** The block cipher under its key; any function will do. */
  type BlockFn = Block -> Block

  datatype Mode = Encrypt | Decrypt

  datatype Register = Register(shift: Block, offset: nat)

  /** The register as it stands when the next byte is xored: a spent block is replaced first. */
  function Primed(e: BlockFn, r: Register): (p: Register)
    requires r.offset <= 16
    ensures p.offset < 16
  {
    if r.offset == 16 || r.offset == 0 then Register(e(r.shift), 0) else r
  }

  function Feed(r: Register, mode: Mode, b: bv8): (x: (Register, bv8))
    requires r.offset < 16
    ensures x.0.offset <= 16
  {
    var c := b ^ r.shift[r.offset];
    (Register(r.shift[r.offset := if mode.Encrypt? then c else b], r.offset + 1), c)
  }

  datatype Output = Output(r: Register, bytes: seq<bv8>)

  /** One call of `xor_key_stream`, byte by byte. */
  function Process(e: BlockFn, r: Register, mode: Mode, src: seq<bv8>): (o: Output)
    requires r.offset <= 16
    ensures o.r.offset <= 16 && |o.bytes| == |src|
    decreases |src|
  {
    if src == [] then Output(r, [])
    else
      var (r1, c) := Feed(Primed(e, r), mode, src[0]);
      var o := Process(e, r1, mode, src[1..]);
      Output(o.r, [c] + o.bytes)
  }

  class AesCfbStream {
    const e: BlockFn
    const mode: Mode
    const shift: array<bv8>
    var offset: nat

    ghost predicate Valid()
      reads this
    {
      shift.Length == 16 && offset <= 16
    }

    function State(): Register
      requires shift.Length == 16
      reads this, shift
    {
      Register(shift[..], offset)
    }

    constructor (e: BlockFn, iv: Block, mode: Mode)
      ensures Valid() && this.e == e && this.mode == mode && fresh(shift)
      ensures State() == Register(iv, 0)
    {
      this.e, this.mode, offset := e, mode, 0;
      shift := new bv8[16](i requires 0 <= i < 16 => iv[i]);
    }

    method XorKeyStream(dst: array<bv8>, src: seq<bv8>)
      requires Valid() && dst.Length == |src| && dst != shift
      modifies this, shift, dst
      ensures Valid()
      ensures Process(e, old(State()), mode, src) == Output(State(), dst[..])
    {
      ghost var want := Process(e, State(), mode, src);
      var i := 0;
      while i < |src|
        invariant 0 <= i <= |src| && Valid()
        invariant var o := Process(e, State(), mode, src[i..]);
          want == Output(o.r, dst[..i] + o.bytes)
      {
        ghost var start, done := State(), dst[..i];
        var n := XorBlock(dst, src, i);
        TakeMore(dst[..], done, i, n);
        ghost var part, rest := src[i..i + n], src[i + n..];
        assert src[i..] == part + rest;
        ProcessSplit(e, start, mode, part, rest);
        Assoc(done, Process(e, start, mode, part).bytes, Process(e, State(), mode, rest).bytes);
        i := i + n;
      }
      assert src[i..] == [] && dst[..i] == dst[..];
    }

    /** One turn of the outer loop: as many bytes as the current block still covers. */
    method XorBlock(dst: array<bv8>, src: seq<bv8>, i: nat) returns (n: nat)
      requires Valid() && dst.Length == |src| && dst != shift && i < |src|
      modifies this, shift, dst
      ensures Valid() && 1 <= n <= |src| - i && dst[..i] == old(dst[..i])
      ensures Process(e, old(State()), mode, src[i..i + n]) == Output(State(), dst[i..i + n])
    {
      ghost var start := State();
      Prime();
      n := Min(16 - offset, |src| - i);
      WithinBlock(e, start, mode, src[i..i + n]);
      XorInto(dst, src, i, n);
      Store(dst, src, i, n);
      offset := offset + n;
    }

    /** A spent block is replaced by its encryption. */
    method Prime()
      requires Valid()
      modifies this, shift
      ensures Valid() && State() == Primed(e, old(State()))
    {
      if offset == 16 { offset := 0; }
      if offset == 0 {
        var block := e(shift[..]);
        forall k | 0 <= k < 16 { shift[k] := block[k]; }
        assert shift[..] == block;
      }
    }

    /** The first inner loop: dst[i..i+n] := src ^ shift. */
    method XorInto(dst: array<bv8>, src: seq<bv8>, i: nat, n: nat)
      requires Valid() && dst.Length == |src| && dst != shift
      requires i + n <= |src| && offset + n <= 16
      modifies dst
      ensures dst[i..i + n] == Xored(State(), src[i..i + n])
      ensures dst[..i] == old(dst[..i])
    {
      ghost var was, x := dst[..], Xored(State(), src[i..i + n]);
      for j := 0 to n
        invariant forall k :: 0 <= k < |src| ==> dst[k] == if i <= k < i + j then x[k - i] else was[k]
      {
        assert src[i + j] == src[i..i + n][j];
        dst[i + j] := src[i + j] ^ shift[offset + j];
      }
    }

    /** The second inner loop: the ciphertext bytes replace the key stream they used up. */
    method Store(dst: array<bv8>, src: seq<bv8>, i: nat, n: nat)
      requires Valid() && dst.Length == |src| && dst != shift
      requires i + n <= |src| && offset + n <= 16
      requires dst[i..i + n] == Xored(State(), src[i..i + n])
      modifies shift
      ensures shift[..] == Kept(old(State()), mode, src[i..i + n])
    {
      ghost var r, part := State(), src[i..i + n];
      ghost var kept := Kept(r, mode, part);
      for j := 0 to n
        invariant forall k :: 0 <= k < 16 ==>
          shift[k] == if offset <= k < offset + j then kept[k] else r.shift[k]
      {
        assert dst[i + j] == dst[i..i + n][j] && src[i + j] == part[j];
        KeptAt(r, mode, part, j);
        shift[offset + j] := if mode.Encrypt? then dst[i + j] else src[i + j];
      }
      KeptElsewhere(r, mode, part);
    }
  }

  lemma TakeMore<T>(s: seq<T>, done: seq<T>, i: nat, n: nat)
    requires i + n <= |s| && done == s[..i]
    ensures s[..i + n] == done + s[i..i + n]
  {
  }

  /** Key stream applied to a part that stays inside the block. */
  function Xored(r: Register, part: seq<bv8>): (x: seq<bv8>)
    requires r.offset + |part| <= 16
  {
    seq(|part|, k requires 0 <= k < |part| => part[k] ^ r.shift[r.offset + k])
  }

  /** The register's bytes after that part. */
  function Kept(r: Register, mode: Mode, part: seq<bv8>): (x: Block)
    requires r.offset + |part| <= 16
  {
    seq(16, k requires 0 <= k < 16 =>
      if r.offset <= k < r.offset + |part|
      then (if mode.Encrypt? then part[k - r.offset] ^ r.shift[k] else part[k - r.offset])
      else r.shift[k])
  }

  lemma KeptAt(r: Register, mode: Mode, part: seq<bv8>, j: nat)
    requires r.offset + |part| <= 16 && j < |part|
    ensures Kept(r, mode, part)[r.offset + j] == if mode.Encrypt? then Xored(r, part)[j] else part[j]
  {
  }

  lemma KeptElsewhere(r: Register, mode: Mode, part: seq<bv8>)
    requires r.offset + |part| <= 16
    ensures forall k :: 0 <= k < 16 && !(r.offset <= k < r.offset + |part|) ==> Kept(r, mode, part)[k] == r.shift[k]
  {
  }

  /** A part that stays inside one block is a plain xor against the primed register. */
  lemma {:induction false} WithinBlock(e: BlockFn, r: Register, mode: Mode, part: seq<bv8>)
    requires r.offset <= 16 && 1 <= |part| <= 16 - Primed(e, r).offset
    ensures var p, o := Primed(e, r), Process(e, r, mode, part);
      o.bytes == Xored(p, part) && o.r == Register(Kept(p, mode, part), p.offset + |part|)
    decreases |part|
  {
    var p := Primed(e, r);
    var (r1, c) := Feed(p, mode, part[0]);
    if |part| > 1 {
      WithinBlock(e, r1, mode, part[1..]);
    } else {
      assert part[1..] == [];
    }
    KeptStep(p, mode, part);
  }

  lemma KeptStep(p: Register, mode: Mode, part: seq<bv8>)
    requires p.offset + |part| <= 16 && part != []
    ensures var (r1, c) := Feed(p, mode, part[0]);
      && Kept(r1, mode, part[1..]) == Kept(p, mode, part)
      && (|part| == 1 ==> Kept(p, mode, part) == r1.shift)
      && Xored(p, part) == [c] + Xored(r1, part[1..])
  {
  }

  /** Processing is oblivious to where a message is cut. */
  lemma {:induction false} ProcessSplit(e: BlockFn, r: Register, mode: Mode, a: seq<bv8>, b: seq<bv8>)
    requires r.offset <= 16
    ensures var x := Process(e, r, mode, a);
      var y := Process(e, x.r, mode, b);
      Process(e, r, mode, a + b) == Output(y.r, x.bytes + y.bytes)
    decreases |a|
  {
    if a == [] {
      assert a + b == b;
    } else {
      var (r1, c) := Feed(Primed(e, r), mode, a[0]);
      ProcessSplit(e, r1, mode, a[1..], b);
      assert (a + b)[0] == a[0] && (a + b)[1..] == a[1..] + b;
      var x := Process(e, r1, mode, a[1..]);
      Assoc([c], x.bytes, Process(e, x.r, mode, b).bytes);
    }
  }

  /** Any number of calls on one stream. */
  function Calls(e: BlockFn, r: Register, mode: Mode, parts: seq<seq<bv8>>): (o: Output)
    requires r.offset <= 16
    ensures o.r.offset <= 16
    decreases |parts|
  {
    if parts == [] then Output(r, [])
    else
      var x := Process(e, r, mode, parts[0]);
      var y := Calls(e, x.r, mode, parts[1..]);
      Output(y.r, x.bytes + y.bytes)
  }

  lemma {:induction false} CallsAreOne(e: BlockFn, r: Register, mode: Mode, parts: seq<seq<bv8>>)
    requires r.offset <= 16
    ensures Calls(e, r, mode, parts) == Process(e, r, mode, Concat(parts))
    decreases |parts|
  {
    if parts != [] {
      CallsAreOne(e, Process(e, r, mode, parts[0]).r, mode, parts[1..]);
      ProcessSplit(e, r, mode, parts[0], Concat(parts[1..]));
    }
  }

  /** CFB-128 of section 6.3 of NIST SP 800-38A, the last segment possibly short. */
  function Cfb128(e: BlockFn, iv: Block, p: seq<bv8>): seq<bv8>
    decreases |p|
  {
    if |p| <= 16 then Xored(Register(e(iv), 0), p)
    else
      var c := Xored(Register(e(iv), 0), p[..16]);
      c + Cfb128(e, c, p[16..])
  }

  lemma {:induction false} ProcessIsCfb128(e: BlockFn, r: Register, p: seq<bv8>)
    requires r.offset == 0 || r.offset == 16
    ensures Process(e, r, Encrypt, p).bytes == Cfb128(e, r.shift, p)
    decreases |p|
  {
    var head := p[..Min(16, |p|)];
    if head != [] { WithinBlock(e, r, Encrypt, head); }
    if |p| > 16 {
      var x := Process(e, r, Encrypt, head);
      assert x.r.shift == Xored(Primed(e, r), head);
      ProcessIsCfb128(e, x.r, p[16..]);
      ProcessSplit(e, r, Encrypt, head, p[16..]);
      assert p == head + p[16..];
    } else {
      assert p == head;
    }
  }

  lemma FeedInverse(r: Register, b: bv8)
    requires r.offset < 16
    ensures var (r1, c) := Feed(r, Encrypt, b); Feed(r, Decrypt, c) == (r1, b)
  {
    var k := r.shift[r.offset];
    assert (b ^ k) ^ k == b;
  }

  /** The decrypting side follows the encrypting one, register and all. */
  lemma {:induction false} DecryptUndoesEncrypt(e: BlockFn, r: Register, p: seq<bv8>)
    requires r.offset <= 16
    ensures var x := Process(e, r, Encrypt, p);
      Process(e, r, Decrypt, x.bytes) == Output(x.r, p)
    decreases |p|
  {
    if p != [] {
      var q := Primed(e, r);
      var (r1, c) := Feed(q, Encrypt, p[0]);
      FeedInverse(q, p[0]);
      DecryptUndoesEncrypt(e, r1, p[1..]);
      var x := Process(e, r1, Encrypt, p[1..]);
      assert ([c] + x.bytes)[0] == c && ([c] + x.bytes)[1..] == x.bytes;
      ConsTail(p, []);
    }
  }

  /**
    * However the plaintext is cut into calls on one side and the ciphertext on the other: the
    * ciphertext is one-shot CFB-128, decryption gives the plaintext back, and both ends finish
    * with the same register and offset.
    */
  lemma StreamsAgree(e: BlockFn, iv: Block, plain: seq<seq<bv8>>, cipher: seq<seq<bv8>>)
    requires Concat(cipher) == Calls(e, Register(iv, 0), Encrypt, plain).bytes
    ensures Concat(cipher) == Cfb128(e, iv, Concat(plain))
    ensures Calls(e, Register(iv, 0), Decrypt, cipher)
         == Output(Calls(e, Register(iv, 0), Encrypt, plain).r, Concat(plain))
  {
    var r := Register(iv, 0);
    CallsAreOne(e, r, Encrypt, plain);
    CallsAreOne(e, r, Decrypt, cipher);
    ProcessIsCfb128(e, r, Concat(plain));
    DecryptUndoesEncrypt(e, r, Concat(plain));
  }
}
