/** Bandwidth limiting (pio/limit.go): the parser `LimitTransfer` for limits such as
    "512kb", and the readers/writers that pass traffic through a token-bucket
    limiter in pieces no larger than its burst.

    The token bucket itself (`golang.org/x/time/rate`) and the time it makes a
    caller wait are not modelled: one underlying read or write followed by its
    `WaitN` is a single `Step` supplied by the caller, reporting how many bytes it
    moved and whether it failed. */
module Limit {
  import opened Wrappers
  import opened GoText

  /** `inf`, the value that stands for "no limit": 1 GiB. */
  const Inf: int := 1024 * 1024 * 1024

  const CharB: byte := 98
  const CharK: byte := 107
  const CharM: byte := 109
  const CharG: byte := 103
  const Char0: byte := 48

  /** The multiplier of a unit letter. */
  function UnitFactor(u: byte): (f: int)
    requires u in {CharK, CharM, CharG}
  {
    if u == CharK then 1024 else if u == CharM then 1024 * 1024 else 1024 * 1024 * 1024
  }

  /** `LimitTransfer` as written, over the bytes of the limit string. The last byte
      must be 'b', otherwise the limit is `Inf`. The number is parsed from everything
      before the LAST TWO bytes; the second-to-last byte is the unit (k, m, g) or,
      failing that, the number's last digit, taken as `byte(c - '0')` with wrap-around.
      Products wrap like a 64-bit `int`. Indexing an empty string, or slicing "b" at
      -1, panics, so those two inputs are excluded. */
  function LimitTransferAsWritten(limit: seq<byte>): (r: int)
    requires |limit| >= 1
    requires limit[|limit| - 1] == CharB ==> |limit| >= 2
    ensures InInt64(r)
    ensures limit[|limit| - 1] != CharB ==> r == Inf
    ensures limit[|limit| - 1] == CharB && Atoi(BytesToString(limit[..|limit| - 2])).None? ==> r == Inf
  {
    if limit[|limit| - 1] != CharB then Inf
    else
      match Atoi(BytesToString(limit[..|limit| - 2]))
      case None => Inf
      case Some(base) =>
        var u := limit[|limit| - 2];
        if u in {CharK, CharM, CharG} then Wrap64(base * UnitFactor(u))
        else Wrap64(base * 10 + ((u as int) - (Char0 as int)) % 256)
  }

  /** `LimitTransfer` as evidently intended: a plain byte count is everything before
      the final 'b'. The unit cases are unchanged. */
  function LimitTransfer(limit: seq<byte>): (r: int)
    ensures InInt64(r)
    ensures |limit| == 0 || limit[|limit| - 1] != CharB ==> r == Inf
  {
    if |limit| == 0 || limit[|limit| - 1] != CharB then Inf
    else if |limit| >= 2 && limit[|limit| - 2] in {CharK, CharM, CharG} then
      match Atoi(BytesToString(limit[..|limit| - 2]))
      case None => Inf
      case Some(base) => Wrap64(base * UnitFactor(limit[|limit| - 2]))
    else
      match Atoi(BytesToString(limit[..|limit| - 1]))
      case None => Inf
      case Some(n) => n
  }

  /** The bytes of a string made of ASCII characters. */
  lemma AsciiBytesPrefix(s: string, k: nat)
    requires IsAscii(s) && k <= |s|
    ensures BytesToString(StringToBytes(s)[..k]) == s[..k]
  {
    var t := BytesToString(StringToBytes(s)[..k]);
    assert forall i :: 0 <= i < k ==> t[i] == s[i];
  }

  lemma ItoaAscii(n: int)
    ensures IsAscii(Itoa(n))
  {
  }

  /** The spelling of a byte limit: decimal, then the unit letters. */
  function Spell(n: int, unit: string): (b: seq<byte>)
    requires IsAscii(unit)
    ensures |b| == |Itoa(n)| + |unit|
  {
    ItoaAscii(n);
    StringToBytes(Itoa(n) + unit)
  }

  /** Corrected, "<n>b" is n bytes, for every n a 64-bit int holds. */
  lemma LimitTransferBytes(n: int)
    requires InInt64(n)
    ensures LimitTransfer(Spell(n, "b")) == n
  {
    var s := Itoa(n) + "b";
    ItoaAscii(n);
    var bs := Spell(n, "b");
    assert bs[|bs| - 1] == CharB;
    AsciiBytesPrefix(s, |s| - 1);
    assert s[..|s| - 1] == Itoa(n);
    var last := Itoa(n)[|Itoa(n)| - 1];
    assert bs[|bs| - 2] as int == last as int;
    assert IsDigit(last) || last == '-';
    assert bs[|bs| - 2] !in {CharK, CharM, CharG};
  }

  /** The parts both parsers look at in "<n>" followed by a unit letter and 'b'. */
  lemma SpellUnitParts(n: int, u: char)
    requires u in {'k', 'm', 'g'}
    ensures var bs := Spell(n, [u, 'b']);
            && |bs| >= 3
            && bs[|bs| - 1] == CharB
            && bs[|bs| - 2] == u as int as byte
            && BytesToString(bs[..|bs| - 2]) == Itoa(n)
  {
    var s := Itoa(n) + [u, 'b'];
    ItoaAscii(n);
    var bs := Spell(n, [u, 'b']);
    AsciiBytesPrefix(s, |s| - 2);
    assert s[..|s| - 2] == Itoa(n);
    assert bs[|bs| - 2] as int == u as int;
  }

  /** With a unit letter both versions read "<n>kb", "<n>mb", "<n>gb" as n times the
      unit, wrapped to 64 bits. */
  lemma LimitTransferUnits(n: int, u: char)
    requires InInt64(n) && u in {'k', 'm', 'g'}
    ensures LimitTransfer(Spell(n, [u, 'b'])) == Wrap64(n * UnitFactor(u as int as byte))
    ensures LimitTransferAsWritten(Spell(n, [u, 'b'])) == Wrap64(n * UnitFactor(u as int as byte))
  {
    SpellUnitParts(n, u);
    var bs := Spell(n, [u, 'b']);
    assert Atoi(Itoa(n)) == Some(n);
    UnitsParse(bs, n);
  }

  /** Both parsers on a count with a unit letter whose head parses as `head`. */
  lemma UnitsParse(bs: seq<byte>, head: int)
    requires |bs| >= 2 && bs[|bs| - 1] == CharB && bs[|bs| - 2] in {CharK, CharM, CharG}
    requires Atoi(BytesToString(bs[..|bs| - 2])) == Some(head)
    ensures LimitTransfer(bs) == Wrap64(head * UnitFactor(bs[|bs| - 2]))
    ensures LimitTransferAsWritten(bs) == Wrap64(head * UnitFactor(bs[|bs| - 2]))
  {
  }

  /** As written, a one-digit byte count such as "5b" leaves nothing before the last
      two bytes to parse, so it reads as `Inf`, no limit at all. */
  lemma OneDigitBytesUnlimited(n: int)
    requires 0 <= n <= 9
    ensures LimitTransferAsWritten(Spell(n, "b")) == Inf
    ensures LimitTransfer(Spell(n, "b")) == n
  {
    LimitTransferBytes(n);
    var bs := Spell(n, "b");
    assert |bs| == 2;
    assert BytesToString(bs[..0]) == "";
  }

  /** The parts the as-written parser looks at in "<n>b" for n of two or more digits:
      the number without its last digit, and that digit. */
  lemma SpellBytesParts(n: int)
    requires n >= 10
    ensures var bs := Spell(n, "b");
            && |bs| >= 3
            && bs[|bs| - 1] == CharB
            && bs[|bs| - 2] as int == (Char0 as int) + n % 10
            && BytesToString(bs[..|bs| - 2]) == Itoa(n / 10)
  {
    var s := Itoa(n) + "b";
    ItoaAscii(n);
    var bs := Spell(n, "b");
    var head := NatToDigits(n / 10);
    assert Itoa(n) == head + [DigitChar(n % 10)];
    AsciiBytesPrefix(s, |s| - 2);
    assert s[..|s| - 2] == head;
    assert Itoa(n / 10) == head;
    assert bs[|bs| - 2] as int == ('0' as int) + n % 10;
  }

  /** From ten up the as-written parser gets byte counts right: the number without its
      last digit, times ten, plus that digit. */
  lemma AsWrittenBytesFromTen(n: int)
    requires 10 <= n <= MaxInt64
    ensures LimitTransferAsWritten(Spell(n, "b")) == n
  {
    SpellBytesParts(n);
    var bs := Spell(n, "b");
    var q, d := n / 10, n % 10;
    assert n == q * 10 + d && 0 <= d < 10;
    AsWrittenPlain(bs, q, d);
  }

  /** The as-written parser on a plain count whose head parses as `head` and whose
      second-to-last byte is the digit `d`: ten times the head, plus the digit. */
  lemma AsWrittenPlain(bs: seq<byte>, head: int, d: int)
    requires |bs| >= 2 && bs[|bs| - 1] == CharB
    requires (bs[|bs| - 2] as int) == (Char0 as int) + d && 0 <= d < 10
    requires Atoi(BytesToString(bs[..|bs| - 2])) == Some(head)
    requires InInt64(head * 10 + d)
    ensures LimitTransferAsWritten(bs) == head * 10 + d
  {
    assert bs[|bs| - 2] !in {CharK, CharM, CharG};
    assert ((bs[|bs| - 2] as int) - (Char0 as int)) % 256 == d;
  }

  /** The token bucket: `rate.NewLimiter(rate.Limit(limit), limit)` sets the rate and
      the burst to the same number. */
  datatype Limiter = Limiter(rate: int, burst: int)

  /** `NewLimitReader`, `NewLimitWriter`, and each of the two limiters of
      `NewLimitReadWriter`. */
  function NewLimiter(limit: int): (l: Limiter)
    ensures l.rate == limit && l.burst == limit
  {
    Limiter(limit, limit)
  }

  /** One underlying read or write followed by its wait. */
  datatype Step = Step(n: int, failed: bool)

  /** `p` cut into consecutive pieces of `burst` bytes, the last one possibly shorter. */
  function Chunks(p: seq<byte>, burst: nat): (cs: seq<seq<byte>>)
    requires burst > 0
    decreases |p|
  {
    if |p| == 0 then []
    else if |p| <= burst then [p]
    else [p[..burst]] + Chunks(p[burst..], burst)
  }

  function Flatten(cs: seq<seq<byte>>): seq<byte> {
    if |cs| == 0 then [] else cs[0] + Flatten(cs[1..])
  }

  /** The pieces cover `p` exactly, in order, each non-empty and at most a burst. */
  lemma {:induction false} ChunksPartition(p: seq<byte>, burst: nat)
    requires burst > 0
    ensures Flatten(Chunks(p, burst)) == p
    ensures forall i :: 0 <= i < |Chunks(p, burst)| ==> 0 < |Chunks(p, burst)[i]| <= burst
    decreases |p|
  {
    if |p| > burst {
      ChunksPartition(p[burst..], burst);
      var cs := Chunks(p, burst);
      assert cs[1..] == Chunks(p[burst..], burst);
      assert p == p[..burst] + p[burst..];
    } else if |p| > 0 {
      assert Flatten([p]) == p + Flatten([]);
    }
  }

  /** The outcome of a limited transfer: bytes moved, whether it failed, and the
      pieces handed to the underlying reader or writer. */
  datatype Transfer = Transfer(total: int, failed: bool, calls: seq<seq<byte>>)

  /** The reference for the chunk loop: step through the pieces, counting the bytes of
      each step (the failing one included) and stopping at the first failure. */
  function RunChunks(cs: seq<seq<byte>>, step: seq<byte> -> Step): Transfer {
    if |cs| == 0 then Transfer(0, false, [])
    else
      var s := step(cs[0]);
      if s.failed then Transfer(s.n, true, [cs[0]])
      else
        var rest := RunChunks(cs[1..], step);
        Transfer(s.n + rest.total, rest.failed, [cs[0]] + rest.calls)
  }

  /** The pieces handed over are a prefix of `cs`, and all of `cs` when no step fails. */
  lemma {:induction false} RunChunksCalls(cs: seq<seq<byte>>, step: seq<byte> -> Step)
    ensures var t := RunChunks(cs, step);
            && |t.calls| <= |cs| && t.calls == cs[..|t.calls|]
            && (!t.failed ==> t.calls == cs)
  {
    if |cs| > 0 && !step(cs[0]).failed {
      RunChunksCalls(cs[1..], step);
      var rest := RunChunks(cs[1..], step);
      assert cs == [cs[0]] + cs[1..];
      assert cs[..1 + |rest.calls|] == [cs[0]] + cs[1..][..|rest.calls|];
    }
  }

  /** `Read` / `Write` of `LimitReader`, `LimitWriter` and `LimitReadWriter`: with no
      limiter, one plain call; a buffer shorter than the burst, one limited call;
      otherwise the chunk loop, which stops at the first failing piece. A burst of
      zero or less would loop forever or slice out of range on a non-empty buffer, so
      it is excluded there. */
  method LimitedTransfer(p: seq<byte>, limiter: Option<Limiter>, step: seq<byte> -> Step) returns (t: Transfer)
    requires limiter.Some? && |p| >= limiter.value.burst ==> limiter.value.burst > 0
    ensures limiter.None? || |p| < limiter.value.burst ==>
              t == Transfer(step(p).n, step(p).failed, [p])
    ensures limiter.Some? && |p| >= limiter.value.burst ==>
              t == RunChunks(Chunks(p, limiter.value.burst), step)
  {
    if limiter.None? || |p| < limiter.value.burst {
      var s := step(p);
      return Transfer(s.n, s.failed, [p]);
    }
    t := ChunkLoop(p, limiter.value.burst, step);
  }

  /** The chunk loop: hand `p` over a burst at a time, counting the bytes of each
      step, and stop at the first failing piece. */
  method ChunkLoop(p: seq<byte>, burst: nat, step: seq<byte> -> Step) returns (t: Transfer)
    requires burst > 0
    ensures t == RunChunks(Chunks(p, burst), step)
  {
    var total := 0;
    var calls: seq<seq<byte>> := [];
    var i := 0;
    while i < |p|
      invariant 0 <= i <= |p|
      invariant RunFrom(p, 0, burst, step) == After(total, calls, RunFrom(p, i, burst, step))
      decreases |p| - i
    {
      var end := if i + burst > |p| then |p| else i + burst;
      var piece := p[i..end];
      var s := step(piece);
      if s.failed {
        t := Transfer(total + s.n, true, calls + [piece]);
        break;
      }
      assert calls + [piece] + RunFrom(p, end, burst, step).calls
          == calls + ([piece] + RunFrom(p, end, burst, step).calls);
      total := total + s.n;
      calls := calls + [piece];
      i := end;
    }
    if i >= |p| {
      t := Transfer(total, false, calls);
    }
    RunFromChunks(p, 0, burst, step);
    assert p[0..] == p;
  }

  /** The outcome of the rest of the loop, after `total` bytes and the pieces `calls`. */
  function After(total: int, calls: seq<seq<byte>>, r: Transfer): Transfer {
    Transfer(total + r.total, r.failed, calls + r.calls)
  }

  /** The loop's own reference, by offset: step the piece at `i`, then stop on failure
      or go on from the end of the piece. */
  function RunFrom(p: seq<byte>, i: nat, burst: nat, step: seq<byte> -> Step): Transfer
    requires burst > 0 && i <= |p|
    decreases |p| - i
  {
    if i == |p| then Transfer(0, false, [])
    else
      var end := if i + burst > |p| then |p| else i + burst;
      var s := step(p[i..end]);
      if s.failed then Transfer(s.n, true, [p[i..end]])
      else After(s.n, [p[i..end]], RunFrom(p, end, burst, step))
  }

  /** Stepping by offset is stepping through the pieces of the rest of the buffer. */
  lemma {:induction false} RunFromChunks(p: seq<byte>, i: nat, burst: nat, step: seq<byte> -> Step)
    requires burst > 0 && i <= |p|
    ensures RunFrom(p, i, burst, step) == RunChunks(Chunks(p[i..], burst), step)
    decreases |p| - i
  {
    if i < |p| {
      var end := if i + burst > |p| then |p| else i + burst;
      ChunksStep(p, i, burst);
      RunFromChunks(p, end, burst, step);
      var cs := Chunks(p[i..], burst);
      assert cs[0] == p[i..end] && cs[1..] == Chunks(p[end..], burst);
    } else {
      assert p[i..] == [];
    }
  }

  /** One turn of the chunk loop peels the next piece off the remaining buffer. */
  lemma ChunksStep(p: seq<byte>, i: nat, burst: nat)
    requires burst > 0 && i < |p|
    ensures var end := if i + burst > |p| then |p| else i + burst;
            Chunks(p[i..], burst) == [p[i..end]] + Chunks(p[end..], burst)
  {
    var end := if i + burst > |p| then |p| else i + burst;
    if i + burst >= |p| {
      assert p[i..end] == p[i..];
      assert p[end..] == [];
    } else {
      assert p[i..][..burst] == p[i..end];
      assert p[i..][burst..] == p[end..];
    }
  }

  /** A transfer that does not fail hands every byte of the buffer to the underlying
      reader or writer exactly once, in order, never more than a burst at a time. */
  lemma SuccessfulTransferCoversBuffer(p: seq<byte>, burst: nat, step: seq<byte> -> Step)
    requires burst > 0
    requires !RunChunks(Chunks(p, burst), step).failed
    ensures Flatten(RunChunks(Chunks(p, burst), step).calls) == p
    ensures forall c :: c in RunChunks(Chunks(p, burst), step).calls ==> 0 < |c| <= burst
  {
    ChunksPartition(p, burst);
    RunChunksCalls(Chunks(p, burst), step);
  }
}
