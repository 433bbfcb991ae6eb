/** Domain names on the wire: labels and compression pointers (section 4.1.4 of RFC 1035). */
module DnsName {
  import opened Bytes

  /** Whether bytes are valid UTF-8, as `str::from_utf8` decides. */
  type Utf8 = seq<byte> -> bool

  const DOT: byte := 46

  /** `labels.join(".")`. */
  function Join(labels: seq<seq<byte>>): seq<byte>
  {
    if labels == [] then [] else if |labels| == 1 then labels[0] else labels[0] + [DOT] + Join(labels[1..])
  }

  // ----- decoding, one turn of the loop at a time -----

  /** The loop's variables; `jump` is `jump_pos` once `jumped` is set. */
  datatype Walk = Walk(pos: nat, labels: seq<seq<byte>>, jump: Option<nat>)

  datatype Decoded = Name(name: seq<byte>, end: nat) | Fail

  datatype Turn = More(w: Walk) | Halt(d: Decoded)

  function Target(hi: byte, lo: byte): nat
    requires hi >= 192
  {
    (hi - 192) * 256 + lo
  }

  function TakeTurn(data: seq<byte>, utf8: Utf8, w: Walk): Turn
  {
    if w.pos >= |data| then Halt(Fail)
    else
      var len: nat := data[w.pos];
      if len == 0 then Halt(Name(Join(w.labels), if w.jump.Some? then w.jump.value else w.pos + 1))
      else if len >= 192 then
        if w.pos + 1 >= |data| then Halt(Fail)
        else More(Walk(Target(len, data[w.pos + 1]), w.labels,
                       if w.jump.Some? then w.jump else Some(w.pos + 2)))
      else if w.pos + 1 + len > |data| then Halt(Fail)
      else
        var text := data[w.pos + 1..w.pos + 1 + len];
        if !utf8(text) then Halt(Fail) else More(Walk(w.pos + 1 + len, w.labels + [text], w.jump))
  }

  /** `k` turns, or fewer if the loop ends. */
  function Turns(data: seq<byte>, utf8: Utf8, w: Walk, k: nat): Turn
  {
    if k == 0 then More(w)
    else match Turns(data, utf8, w, k - 1)
      case Halt(d) => Halt(d)
      case More(w') => TakeTurn(data, utf8, w')
  }

  function Start(offset: nat): Walk { Walk(offset, [], None) }

  /** Decided by running one turn more than there are bytes; `HaltsIff` shows that this is exact. */
  predicate Halts(data: seq<byte>, utf8: Utf8, offset: nat)
  {
    Turns(data, utf8, Start(offset), |data| + 1).Halt?
  }

  /** The result of `decode_domain_name`, where it returns at all. */
  function Decode(data: seq<byte>, utf8: Utf8, offset: nat): Decoded
    requires Halts(data, utf8, offset)
  {
    Turns(data, utf8, Start(offset), |data| + 1).d
  }

  method DecodeDomainName(data: seq<byte>, utf8: Utf8, offset: nat) returns (d: Decoded)
    requires Halts(data, utf8, offset)
    ensures d == Decode(data, utf8, offset)
  {
    var labels, jumped := [], false;
    var pos: nat, jumpPos: nat := offset, 0;
    ghost var k := 0;
    while true
      invariant k <= |data|
      invariant Turns(data, utf8, Start(offset), k) == More(Walk(pos, labels, if jumped then Some(jumpPos) else None))
      decreases |data| - k
    {
      ghost var w := Walk(pos, labels, if jumped then Some(jumpPos) else None);
      NextTurn(data, utf8, offset, k, w);
      k := k + 1;
      if pos >= |data| { return Fail; }
      var len: nat := data[pos];
      if len == 0 {
        pos := pos + 1;
        break;
      }
      if len >= 192 {
        if pos + 1 >= |data| { return Fail; }
        var ptr := Target(len, data[pos + 1]);
        if !jumped {
          jumpPos, jumped := pos + 2, true;
        }
        pos := ptr;
        continue;
      }
      if pos + 1 + len > |data| { return Fail; }
      var text := data[pos + 1..pos + 1 + len];
      if !utf8(text) { return Fail; }
      labels := labels + [text];
      pos := pos + 1 + len;
    }
    return Name(Join(labels), if jumped then jumpPos else pos);
  }

  lemma NextTurn(data: seq<byte>, utf8: Utf8, offset: nat, k: nat, w: Walk)
    requires Halts(data, utf8, offset) && k <= |data| && Turns(data, utf8, Start(offset), k) == More(w)
    ensures var t := TakeTurn(data, utf8, w);
      if t.Halt? then t.d == Decode(data, utf8, offset)
      else k < |data| && Turns(data, utf8, Start(offset), k + 1) == t
  {
    TurnsSettle(data, utf8, Start(offset), k + 1, |data| + 1);
  }

  lemma {:induction false} TurnsSettle(data: seq<byte>, utf8: Utf8, w: Walk, k: nat, n: nat)
    requires k <= n
    ensures var t := Turns(data, utf8, w, k);
      t.Halt? ==> Turns(data, utf8, w, n) == t
    decreases n - k
  {
    if k < n { TurnsSettle(data, utf8, w, k, n - 1); }
  }

  // ----- when it halts -----

  function PosAfter(data: seq<byte>, utf8: Utf8, w: Walk, k: nat): Option<nat>
  {
    var t := Turns(data, utf8, w, k);
    if t.More? then Some(t.w.pos) else None
  }

  /** Where the walk goes next, as a function of where it is alone. */
  function NextPos(data: seq<byte>, utf8: Utf8, pos: nat): Option<nat>
  {
    var t := TakeTurn(data, utf8, Start(pos));
    if t.More? then Some(t.w.pos) else None
  }

  lemma TurnMovesByPos(data: seq<byte>, utf8: Utf8, w: Walk)
    ensures var t := TakeTurn(data, utf8, w);
      NextPos(data, utf8, w.pos) == if t.More? then Some(t.w.pos) else None
  {
  }

  lemma SamePlaceSameNext(data: seq<byte>, utf8: Utf8, w: Walk, i: nat, j: nat)
    requires PosAfter(data, utf8, w, i) == PosAfter(data, utf8, w, j)
    ensures PosAfter(data, utf8, w, i + 1) == PosAfter(data, utf8, w, j + 1)
  {
    var a, b := Turns(data, utf8, w, i), Turns(data, utf8, w, j);
    if a.More? {
      TurnMovesByPos(data, utf8, a.w);
      TurnMovesByPos(data, utf8, b.w);
    }
  }

  lemma {:induction false} CycleShifts(data: seq<byte>, utf8: Utf8, w: Walk, i: nat, j: nat, n: nat)
    requires PosAfter(data, utf8, w, i) == PosAfter(data, utf8, w, j)
    ensures PosAfter(data, utf8, w, i + n) == PosAfter(data, utf8, w, j + n)
  {
    if n > 0 {
      CycleShifts(data, utf8, w, i, j, n - 1);
      SamePlaceSameNext(data, utf8, w, i + n - 1, j + n - 1);
    }
  }

  /** A place visited twice is visited for ever. */
  lemma {:induction false} CycleNeverHalts(data: seq<byte>, utf8: Utf8, w: Walk, i: nat, j: nat, k: nat)
    requires i < j && PosAfter(data, utf8, w, i).Some?
    requires PosAfter(data, utf8, w, i) == PosAfter(data, utf8, w, j)
    ensures Turns(data, utf8, w, k).More?
    decreases k
  {
    if k <= j {
      TurnsSettle(data, utf8, w, k, j);
    } else {
      var earlier := i + (k - j);
      CycleNeverHalts(data, utf8, w, i, j, earlier);
      assert PosAfter(data, utf8, w, earlier) == PosAfter(data, utf8, w, k) by {
        CycleShifts(data, utf8, w, i, j, k - j);
      }
    }
  }

  function Range(n: nat): (r: set<nat>)
    ensures |r| == n && forall x: nat :: x in r <==> x < n
  {
    if n == 0 then {} else Range(n - 1) + {n - 1}
  }

  function Seen(s: seq<nat>): (r: set<nat>)
    ensures forall x: nat :: x in r <==> x in s
  {
    if s == [] then {} else {s[0]} + Seen(s[1..])
  }

  lemma {:induction false} SeenSize(s: seq<nat>)
    requires forall i, j :: 0 <= i < j < |s| ==> s[i] != s[j]
    ensures |Seen(s)| == |s|
  {
    if s != [] {
      SeenSize(s[1..]);
      assert s[0] !in Seen(s[1..]);
    }
  }

  /** Pigeonhole: distinct numbers below n are at most n. */
  lemma DistinctBound(s: seq<nat>, n: nat)
    requires forall i :: 0 <= i < |s| ==> s[i] < n
    requires forall i, j :: 0 <= i < j < |s| ==> s[i] != s[j]
    ensures |s| <= n
  {
    SeenSize(s);
    var a, b := Seen(s), Range(n);
    assert a <= b;
    assert |b| == |a| + |b - a|;
  }

  /** If the walk is still going after a turn more than there are bytes, it has been somewhere twice. */
  lemma LongWalkRepeats(data: seq<byte>, utf8: Utf8, w: Walk) returns (i: nat, j: nat)
    requires Turns(data, utf8, w, |data| + 1).More?
    ensures i < j && PosAfter(data, utf8, w, i).Some?
    ensures PosAfter(data, utf8, w, i) == PosAfter(data, utf8, w, j)
  {
    var n := |data| + 1;
    forall k | 0 <= k < n
      ensures var p := PosAfter(data, utf8, w, k); p.Some? && p.value < |data|
    {
      TurnsSettle(data, utf8, w, k, n);
      TurnsSettle(data, utf8, w, k + 1, n);
    }
    var s: seq<nat> := seq(n, k requires 0 <= k < n => PosAfter(data, utf8, w, k).value);
    if forall a, b :: 0 <= a < b < |s| ==> s[a] != s[b] {
      DistinctBound(s, |data|);
    }
    i, j :| 0 <= i < j < |s| && s[i] == s[j];
  }

  /** `decode_domain_name` returns after some number of turns exactly when `Halts` says so. */
  lemma HaltsIff(data: seq<byte>, utf8: Utf8, offset: nat)
    ensures (exists k: nat :: Turns(data, utf8, Start(offset), k).Halt?) <==> Halts(data, utf8, offset)
  {
    if !Halts(data, utf8, offset) {
      var i, j := LongWalkRepeats(data, utf8, Start(offset));
      forall k: nat
        ensures Turns(data, utf8, Start(offset), k).More?
      {
        CycleNeverHalts(data, utf8, Start(offset), i, j, k);
      }
    } else {
      assert Turns(data, utf8, Start(offset), |data| + 1).Halt?;
    }
  }

  /** The walk is at the same place after `i` turns and after `j`. */
  ghost predicate Repeats(data: seq<byte>, utf8: Utf8, w: Walk, i: nat, j: nat)
  {
    i < j && PosAfter(data, utf8, w, i).Some? && PosAfter(data, utf8, w, i) == PosAfter(data, utf8, w, j)
  }

  /** Decoding hangs exactly when it comes to some place twice. */
  lemma HangsIffRepeats(data: seq<byte>, utf8: Utf8, offset: nat)
    ensures !Halts(data, utf8, offset) <==> exists i: nat, j: nat :: Repeats(data, utf8, Start(offset), i, j)
  {
    if !Halts(data, utf8, offset) {
      var i, j := LongWalkRepeats(data, utf8, Start(offset));
      assert Repeats(data, utf8, Start(offset), i, j);
    } else if i: nat, j: nat :| Repeats(data, utf8, Start(offset), i, j) {
      CycleNeverHalts(data, utf8, Start(offset), i, j, |data| + 1);
    }
  }

  /** With no guard in the loop, a pointer to itself is enough to hang it. */
  lemma SelfPointerHangs(utf8: Utf8)
    ensures !Halts([192, 0], utf8, 0)
  {
    var data := [192, 0];
    var w1 := TakeTurn(data, utf8, Start(0));
    assert Turns(data, utf8, Start(0), 0) == More(Start(0));
    assert Turns(data, utf8, Start(0), 1) == w1 && w1.More? && w1.w.pos == 0;
    CycleNeverHalts(data, utf8, Start(0), 0, 1, |data| + 1);
  }

  /** Nor is it enough that a pointer leads to before itself: one back into its own label run hangs too. */
  lemma PointerIntoOwnRunHangs(utf8: Utf8)
    requires utf8([97])
    ensures !Halts([1, 97, 192, 0], utf8, 0)
  {
    var data := [1, 97, 192, 0];
    assert data[1..2] == [97];
    var w1 := TakeTurn(data, utf8, Start(0)).w;
    assert Turns(data, utf8, Start(0), 0) == More(Start(0));
    assert Turns(data, utf8, Start(0), 1) == More(w1);
    assert Turns(data, utf8, Start(0), 2) == TakeTurn(data, utf8, w1);
    CycleNeverHalts(data, utf8, Start(0), 0, 2, |data| + 1);
  }

  /** Every pointer met from `pos` on leads to before the start of the label run it stands in. */
  predicate PointsBack(data: seq<byte>, run: nat, pos: nat)
    decreases run, Left(data, pos)
  {
    if pos >= |data| || data[pos] == 0 then true
    else if data[pos] >= 192 then
      pos + 1 >= |data|
      || (var t := Target(data[pos], data[pos + 1]); t < run && PointsBack(data, t, t))
    else pos + 1 + data[pos] > |data| || PointsBack(data, run, pos + 1 + data[pos])
  }

  /** The label run the walk is in after a turn: a jump starts a new one. */
  function RunAfter(data: seq<byte>, run: nat, pos: nat, next: nat): nat
  {
    if pos < |data| && data[pos] >= 192 then next else run
  }

  function Left(data: seq<byte>, pos: nat): nat { if pos < |data| then |data| - pos else 0 }

  lemma PointsBackTurn(data: seq<byte>, utf8: Utf8, v: Walk, run: nat)
    requires PointsBack(data, run, v.pos)
    ensures var t := TakeTurn(data, utf8, v);
      t.More? ==>
        var run' := RunAfter(data, run, v.pos, t.w.pos);
        PointsBack(data, run', t.w.pos) && (run' < run || (run' == run && Left(data, t.w.pos) < Left(data, v.pos)))
  {
  }

  lemma {:induction false} PointsBackHalts(data: seq<byte>, utf8: Utf8, w: Walk, k: nat, v: Walk, run: nat)
    returns (n: nat)
    requires Turns(data, utf8, w, k) == More(v) && PointsBack(data, run, v.pos)
    ensures Turns(data, utf8, w, n).Halt?
    decreases run, Left(data, v.pos)
  {
    n := k + 1;
    var t := TakeTurn(data, utf8, v);
    assert Turns(data, utf8, w, n) == t;
    if t.More? {
      PointsBackTurn(data, utf8, v, run);
      n := PointsBackHalts(data, utf8, w, k + 1, t.w, RunAfter(data, run, v.pos, t.w.pos));
    }
  }

  /** So decoding returns on every name that follows the rule for pointers. */
  lemma CompliantNamesHalt(data: seq<byte>, utf8: Utf8, offset: nat)
    requires PointsBack(data, offset, offset)
    ensures Halts(data, utf8, offset)
  {
    var n := PointsBackHalts(data, utf8, Start(offset), 0, Start(offset), offset);
    HaltsIff(data, utf8, offset);
  }

  // ----- what it returns -----

  /** How a name at some place is put together. */
  datatype Expansion = Root | Label(text: seq<byte>, rest: Expansion) | Pointer(rest: Expansion)

  predicate LabelAt(data: seq<byte>, utf8: Utf8, pos: nat, text: seq<byte>)
  {
    && 0 < |text| < 192
    && pos + 1 + |text| <= |data|
    && data[pos] == |text|
    && data[pos + 1..pos + 1 + |text|] == text
    && utf8(text)
  }

  predicate Expands(data: seq<byte>, utf8: Utf8, pos: nat, x: Expansion)
    decreases x
  {
    pos < |data| &&
    match x
    case Root => data[pos] == 0
    case Label(text, rest) => LabelAt(data, utf8, pos, text) && Expands(data, utf8, pos + 1 + |text|, rest)
    case Pointer(rest) =>
      && data[pos] >= 192
      && pos + 1 < |data|
      && Expands(data, utf8, Target(data[pos], data[pos + 1]), rest)
  }

  function LabelsOf(x: Expansion): seq<seq<byte>>
  {
    match x
    case Root => []
    case Label(text, rest) => [text] + LabelsOf(rest)
    case Pointer(rest) => LabelsOf(rest)
  }

  /** Just past the name's first pointer, or past its root where it has none. */
  function EndOf(pos: nat, x: Expansion): nat
    decreases x
  {
    match x
    case Root => pos + 1
    case Label(text, rest) => EndOf(pos + 1 + |text|, rest)
    case Pointer(_) => pos + 2
  }

  /** The end position seen from inside a walk that may have jumped already. */
  function EndFrom(w: Walk, x: Expansion): nat { if w.jump.Some? then w.jump.value else EndOf(w.pos, x) }

  lemma {:induction false} ExpansionIsWalked(data: seq<byte>, utf8: Utf8, w: Walk, k: nat, v: Walk, x: Expansion)
    returns (n: nat)
    requires Turns(data, utf8, w, k) == More(v) && Expands(data, utf8, v.pos, x)
    ensures Turns(data, utf8, w, n) == Halt(Name(Join(v.labels + LabelsOf(x)), EndFrom(v, x)))
    decreases x
  {
    n := k + 1;
    ExpandsTurn(data, utf8, v, x);
    var t := TakeTurn(data, utf8, v);
    assert Turns(data, utf8, w, k + 1) == t;
    if !x.Root? {
      n := ExpansionIsWalked(data, utf8, w, k + 1, t.w, x.rest);
      if x.Label? { Assoc(v.labels, [x.text], LabelsOf(x.rest)); }
    }
  }

  /** One turn follows one constructor of the expansion. */
  lemma ExpandsTurn(data: seq<byte>, utf8: Utf8, v: Walk, x: Expansion)
    requires Expands(data, utf8, v.pos, x)
    ensures var t := TakeTurn(data, utf8, v);
      match x
      case Root => t == Halt(Name(Join(v.labels + LabelsOf(x)), EndFrom(v, x)))
      case Label(text, rest) =>
        && t.More? && t.w.labels == v.labels + [text]
        && Expands(data, utf8, t.w.pos, rest) && EndFrom(t.w, rest) == EndFrom(v, x)
      case Pointer(rest) =>
        && t.More? && t.w.labels == v.labels
        && Expands(data, utf8, t.w.pos, rest) && EndFrom(t.w, rest) == EndFrom(v, x)
  {
    assert v.labels + [] == v.labels;
  }

  lemma {:induction false} WalkIsExpansion(data: seq<byte>, utf8: Utf8, w: Walk, k: nat, v: Walk, n: nat)
    returns (x: Expansion)
    requires k <= n && Turns(data, utf8, w, k) == More(v)
    requires Turns(data, utf8, w, n).Halt? && Turns(data, utf8, w, n).d.Name?
    ensures Expands(data, utf8, v.pos, x)
    decreases n - k
  {
    var t := TakeTurn(data, utf8, v);
    assert Turns(data, utf8, w, k + 1) == t;
    TurnsSettle(data, utf8, w, k + 1, n);
    if t.Halt? {
      x := Root;
    } else {
      var rest := WalkIsExpansion(data, utf8, w, k + 1, t.w, n);
      x := TurnExpands(data, utf8, v, rest);
    }
  }

  lemma TurnExpands(data: seq<byte>, utf8: Utf8, v: Walk, rest: Expansion) returns (x: Expansion)
    requires TakeTurn(data, utf8, v).More? && Expands(data, utf8, TakeTurn(data, utf8, v).w.pos, rest)
    ensures Expands(data, utf8, v.pos, x)
  {
    if data[v.pos] >= 192 {
      x := Pointer(rest);
    } else {
      var text := data[v.pos + 1..v.pos + 1 + data[v.pos]];
      assert LabelAt(data, utf8, v.pos, text);
      x := Label(text, rest);
    }
  }

  /** Wherever a name expands, decoding returns and yields that expansion and its end. */
  lemma DecodeFollowsExpansion(data: seq<byte>, utf8: Utf8, offset: nat, x: Expansion)
    requires Expands(data, utf8, offset, x)
    ensures Halts(data, utf8, offset)
    ensures Decode(data, utf8, offset) == Name(Join(LabelsOf(x)), EndOf(offset, x))
  {
    var n := ExpansionIsWalked(data, utf8, Start(offset), 0, Start(offset), x);
    HaltsIff(data, utf8, offset);
    assert [] + LabelsOf(x) == LabelsOf(x);
    if n <= |data| + 1 {
      TurnsSettle(data, utf8, Start(offset), n, |data| + 1);
    } else {
      TurnsSettle(data, utf8, Start(offset), |data| + 1, n);
    }
  }

  /** Decoding yields a name exactly when the bytes expand to it; otherwise it fails or hangs. */
  lemma DecodesIffExpands(data: seq<byte>, utf8: Utf8, offset: nat, d: Decoded)
    requires d.Name?
    ensures Halts(data, utf8, offset) && Decode(data, utf8, offset) == d
        <==> exists x :: Expands(data, utf8, offset, x) && d == Name(Join(LabelsOf(x)), EndOf(offset, x))
  {
    if Halts(data, utf8, offset) && Decode(data, utf8, offset) == d {
      var x := WalkIsExpansion(data, utf8, Start(offset), 0, Start(offset), |data| + 1);
      DecodeFollowsExpansion(data, utf8, offset, x);
    }
    if x :| Expands(data, utf8, offset, x) && d == Name(Join(LabelsOf(x)), EndOf(offset, x)) {
      DecodeFollowsExpansion(data, utf8, offset, x);
    }
  }

  // ----- encoding -----

  /** `str::split('.')`. */
  function Split(d: seq<byte>): (labels: seq<seq<byte>>)
    ensures labels != []
  {
    if d == [] then [[]]
    else
      var rest := Split(d[1..]);
      if d[0] == DOT then [[]] + rest else [[d[0]] + rest[0]] + rest[1..]
  }

  function Clip(text: seq<byte>): (r: seq<byte>)
    ensures |r| <= 63
  {
    text[..Min(|text|, 63)]
  }

  function EncodeLabel(text: seq<byte>): seq<byte> { [|Clip(text)|] + Clip(text) }

  function EncodeLabels(labels: seq<seq<byte>>): seq<byte>
  {
    if labels == [] then [] else EncodeLabel(labels[0]) + EncodeLabels(labels[1..])
  }

  function EncodeName(d: seq<byte>): seq<byte> { EncodeLabels(Split(d)) + [0] }

  /** The loop of `encode_domain_name` over the labels. */
  method EncodeDomainName(d: seq<byte>) returns (out: seq<byte>)
    ensures out == EncodeName(d)
  {
    out := [];
    var labels := Split(d);
    for i := 0 to |labels|
      invariant EncodeLabels(labels) == out + EncodeLabels(labels[i..])
    {
      var len := Min(|labels[i]|, 63);
      assert labels[i..][1..] == labels[i + 1..];
      Assoc(out, EncodeLabel(labels[i]), EncodeLabels(labels[i + 1..]));
      Assoc(out, [len], labels[i][..len]);
      out := out + [len] + labels[i][..len];
    }
    out := out + [0];
  }

  lemma {:induction false} JoinSplit(d: seq<byte>)
    ensures Join(Split(d)) == d
  {
    if d != [] {
      JoinSplit(d[1..]);
      var rest := Split(d[1..]);
      if d[0] == DOT {
        assert ([[]] + rest)[1..] == rest;
      } else {
        JoinCons(d[0], rest);
      }
    }
  }

  lemma JoinCons(b: byte, labels: seq<seq<byte>>)
    requires labels != []
    ensures Join([[b] + labels[0]] + labels[1..]) == [b] + Join(labels)
  {
    assert ([[b] + labels[0]] + labels[1..])[1..] == labels[1..];
  }

  predicate Solid(labels: seq<seq<byte>>) { forall i :: 0 <= i < |labels| ==> labels[i] != [] }

  predicate Short(labels: seq<seq<byte>>) { forall i :: 0 <= i < |labels| ==> |labels[i]| <= 63 }

  /** The labels that decoding gets to see: up to the first empty one, each at most 63 bytes. */
  function Visible(labels: seq<seq<byte>>): seq<seq<byte>>
  {
    if labels == [] || labels[0] == [] then [] else [Clip(labels[0])] + Visible(labels[1..])
  }

  function Chain(labels: seq<seq<byte>>): Expansion
  {
    if labels == [] then Root else Label(labels[0], Chain(labels[1..]))
  }

  lemma {:induction false} ChainLabels(labels: seq<seq<byte>>)
    ensures LabelsOf(Chain(labels)) == labels
  {
    if labels != [] { ChainLabels(labels[1..]); }
  }

  predicate Ascii(s: seq<byte>) { forall i :: 0 <= i < |s| ==> s[i] < 128 }

  lemma OneLabel(data: seq<byte>, utf8: Utf8, pos: nat, text: seq<byte>)
    requires Stands(data, pos, EncodeLabel(text))
    ensures data[pos] == |Clip(text)|
    ensures text != [] && utf8(Clip(text)) ==> LabelAt(data, utf8, pos, Clip(text))
  {
    StandsSplit(data, pos, [|Clip(text)|], Clip(text));
    StandsAt(data, pos, EncodeLabel(text), 0);
  }

  /** Encoded labels followed by a zero expand, wherever they stand, to the visible ones. */
  lemma {:induction false} EncodedExpands(data: seq<byte>, utf8: Utf8, pos: nat, labels: seq<seq<byte>>)
    requires Stands(data, pos, EncodeLabels(labels) + [0])
    requires forall i :: 0 <= i < |labels| ==> utf8(Clip(labels[i]))
    ensures var x, end := Chain(Visible(labels)), pos + |EncodeLabels(labels)| + 1;
      && Expands(data, utf8, pos, x)
      && EndOf(pos, x) <= end
      && (EndOf(pos, x) == end <==> Solid(labels))
    decreases |labels|
  {
    if labels == [] {
      StandsAt(data, pos, EncodeLabels(labels) + [0], 0);
    } else {
      var text, rest := labels[0], EncodeLabels(labels[1..]) + [0];
      Assoc(EncodeLabel(text), EncodeLabels(labels[1..]), [0]);
      StandsSplit(data, pos, EncodeLabel(text), rest);
      OneLabel(data, utf8, pos, text);
      if text != [] {
        EncodedExpands(data, utf8, pos + 1 + |Clip(text)|, labels[1..]);
        assert Solid(labels) <==> Solid(labels[1..]);
        VisibleCons(labels);
      }
    }
  }

  lemma VisibleCons(labels: seq<seq<byte>>)
    requires labels != [] && labels[0] != []
    ensures Chain(Visible(labels)) == Label(Clip(labels[0]), Chain(Visible(labels[1..])))
  {
    assert Visible(labels)[1..] == Visible(labels[1..]);
  }

  lemma {:induction false} ClipShortens(labels: seq<seq<byte>>)
    requires Solid(labels)
    ensures |Visible(labels)| == |labels| && |Join(Visible(labels))| <= |Join(labels)|
    ensures Short(labels) ==> Visible(labels) == labels
    ensures !Short(labels) ==> |Join(Visible(labels))| < |Join(labels)|
  {
    if labels != [] {
      ClipShortens(labels[1..]);
      assert Visible(labels)[0] == Clip(labels[0]) && Visible(labels)[1..] == Visible(labels[1..]);
      assert Short(labels) <==> |labels[0]| <= 63 && Short(labels[1..]);
      assert |labels[0]| <= 63 ==> Clip(labels[0]) == labels[0];
      assert labels == [labels[0]] + labels[1..];
    }
  }

  /**
    * A name of ASCII bytes comes back from the wire, at any offset and whatever surrounds it, with
    * decoding stopping right behind it, exactly when all its labels are 1 to 63 bytes long.
    */
  lemma NameRoundTripIff(utf8: Utf8, before: seq<byte>, d: seq<byte>, after: seq<byte>)
    requires Ascii(d) && forall s :: Ascii(s) ==> utf8(s)
    ensures var data := before + EncodeName(d) + after;
      && Halts(data, utf8, |before|)
      && (Decode(data, utf8, |before|) == Name(d, |before| + |EncodeName(d)|)
          <==> Solid(Split(d)) && Short(Split(d)))
  {
    var labels, data := Split(d), before + EncodeName(d) + after;
    SplitAscii(d);
    StandsIn(before, EncodeName(d), after);
    forall i | 0 <= i < |labels|
      ensures utf8(Clip(labels[i]))
    {
      assert Ascii(Clip(labels[i]));
    }
    EncodedExpands(data, utf8, |before|, labels);
    ChainLabels(Visible(labels));
    DecodeFollowsExpansion(data, utf8, |before|, Chain(Visible(labels)));
    JoinSplit(d);
    if Solid(labels) {
      ClipShortens(labels);
    }
  }

  lemma {:induction false} SplitAscii(d: seq<byte>)
    requires Ascii(d)
    ensures forall i :: 0 <= i < |Split(d)| ==> Ascii(Split(d)[i])
  {
    if d != [] { SplitAscii(d[1..]); }
  }
}
