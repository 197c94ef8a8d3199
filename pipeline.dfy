/** The four stages of examples/pipeline/pipeline.cpp (and their lambda
    copies in pipeline_stream.cpp): `reader` pushes the input lines,
    `filter` masks short lines, `upper` upper-cases every line in place,
    `writer` numbers them.  Each stage reads its `In` until the first null
    pop; one that finds its queue empty but not yet stopped would wait and
    is reported as `Waiting`.  Standard input and output are the lines
    given and the lines returned. */
module Pipeline {
  import opened PipeQueue

  /** A line read by `std::getline`: one `char` per byte of the
      `std::string`, so its length is the string's `size()`. */
  type Line = s: string | forall i :: 0 <= i < |s| ==> s[i] as int < 256 witness ""

  /** `filter`'s rule: a line shorter than five bytes becomes "***". */
  function Censor(line: Line): (r: Line)
    ensures r == line || r == "***"
    ensures r == line <==> 5 <= |line| || line == "***"
  {
    if |line| < 5 then "***" else line
  }

  /** Length is counted in bytes: "日本語", three characters but nine
      UTF-8 bytes, is not short and passes `filter` unchanged. */
  lemma CensorCountsBytes()
    ensures var l: Line := [0xE6 as char, 0x97 as char, 0xA5 as char, 0xE6 as char, 0x9C as char,
                            0xAC as char, 0xE8 as char, 0xAA as char, 0x9E as char];
      |l| == 9 && Censor(l) == l
  {
  }

  /** `std::toupper` in the C locale: only 'a'..'z' change. */
  function ToUpper(c: char): (u: char)
    ensures !('a' <= u <= 'z')
    ensures u != c ==> 'a' <= c <= 'z' && 'A' <= u <= 'Z'
  {
    if 'a' <= c <= 'z' then (c as int - 32) as char else c
  }

  function UpperLine(line: Line): (u: Line)
    ensures |u| == |line|
  {
    seq(|line|, k requires 0 <= k < |line| => ToUpper(line[k]))
  }

  function CensorAll(lines: seq<Line>): (r: seq<Line>)
    ensures |r| == |lines|
  {
    seq(|lines|, k requires 0 <= k < |lines| => Censor(lines[k]))
  }

  function UpperAll(lines: seq<Line>): (r: seq<Line>)
    ensures |r| == |lines|
  {
    seq(|lines|, k requires 0 <= k < |lines| => UpperLine(lines[k]))
  }

  /** Censoring again changes nothing, upper-casing again changes nothing,
      and the two stages may be run in either order. */
  lemma StagesCommute(line: Line)
    ensures Censor(Censor(line)) == Censor(line)
    ensures UpperLine(UpperLine(line)) == UpperLine(line)
    ensures UpperLine(Censor(line)) == Censor(UpperLine(line))
  {
    if |line| < 5 {
      assert UpperLine("***") == "***";
    }
  }

  function DigitChar(d: nat): (c: char)
    requires d < 10
    ensures '0' <= c <= '9'
  {
    ('0' as int + d) as char
  }

  predicate AllDigits(s: string)
  {
    forall i :: 0 <= i < |s| ==> '0' <= s[i] <= '9'
  }

  /** Decimal form of a counter (`operator<<` of a `size_t`). */
  function NatToString(n: nat): (s: string)
    ensures |s| >= 1 && AllDigits(s)
    decreases n
  {
    if n < 10 then [DigitChar(n)] else NatToString(n / 10) + [DigitChar(n % 10)]
  }

  function ParseNat(s: string): nat
    requires AllDigits(s)
  {
    if s == [] then 0 else ParseNat(s[..|s| - 1]) * 10 + (s[|s| - 1] as int - '0' as int)
  }

  lemma {:induction false} ParseNatToString(n: nat)
    ensures ParseNat(NatToString(n)) == n
    decreases n
  {
    var s := NatToString(n);
    if n >= 10 {
      ParseNatToString(n / 10);
      assert s[..|s| - 1] == NatToString(n / 10);
    }
  }

  /** The line `writer` prints for the `count`-th item. */
  function Label(count: nat, line: Line): Line
  {
    "L" + NatToString(count) + ": " + line
  }

  /** The number in a label reads back as the counter it was made from. */
  lemma LabelNumber(count: nat, line: Line)
    ensures var l, d := Label(count, line), |NatToString(count)|;
      && 1 + d + 2 <= |l| && l[0] == 'L' && l[1 + d..1 + d + 2] == ": "
      && AllDigits(l[1..1 + d]) && ParseNat(l[1..1 + d]) == count
      && l[1 + d + 2..] == line
  {
    var l, n := Label(count, line), NatToString(count);
    assert l[1..1 + |n|] == n;
    ParseNatToString(count);
  }

  /** The lines `writer` prints when its counter starts at `from`. */
  function Labelled(from: nat, lines: seq<Line>): (r: seq<Line>)
    ensures |r| == |lines|
  {
    seq(|lines|, k requires 0 <= k < |lines| => Label(from + k, lines[k]))
  }

  /** How a stage's loop ended: a null pop, or a pop that would wait. */
  datatype StageExit = Finished | Waiting

  /** `reader`: one push per input line, in order. */
  method Reader(lines: seq<Line>, out: Out<Line>)
    modifies out.queue
    ensures out.queue.items == old(out.queue.items) + lines
    ensures out.queue.stopped == old(out.queue.stopped)
  {
    for i := 0 to |lines|
      invariant out.queue.items == old(out.queue.items) + lines[..i]
      invariant out.queue.stopped == old(out.queue.stopped)
    {
      out.Push(lines[i]);
    }
  }

  /** `filter`: every popped line is pushed on, short ones as "***".  With
      the pop as written, a stopped input ends the stage at once with its
      lines left queued; otherwise the stage takes every queued line and
      then waits. */
  method Filter(inp: In<Line>, out: Out<Line>) returns (exit: StageExit)
    requires inp.queue != out.queue
    modifies inp.queue, out.queue
    ensures inp.queue.stopped == old(inp.queue.stopped) && out.queue.stopped == old(out.queue.stopped)
    ensures old(inp.queue.stopped) ==>
      exit == Finished && inp.queue.items == old(inp.queue.items) && out.queue.items == old(out.queue.items)
    ensures !old(inp.queue.stopped) ==>
      exit == Waiting && inp.queue.items == [] && out.queue.items == old(out.queue.items) + CensorAll(old(inp.queue.items))
  {
    ghost var input := inp.queue.items;
    ghost var k := 0;
    var iter := inp.Pop();
    while iter.Item?
      invariant 0 <= k <= |input| && inp.queue.stopped == old(inp.queue.stopped)
      invariant iter.Item? ==> !inp.queue.stopped && k < |input| && iter.data == input[k] && inp.queue.items == input[k + 1..]
      invariant !iter.Item? && inp.queue.stopped ==> iter == Null && k == 0 && inp.queue.items == input
      invariant !iter.Item? && !inp.queue.stopped ==> iter == Blocked && k == |input| && inp.queue.items == []
      invariant out.queue.items == old(out.queue.items) + CensorAll(input[..k])
      invariant out.queue.stopped == old(out.queue.stopped)
      decreases |inp.queue.items| + (if iter.Item? then 1 else 0)
    {
      if |iter.data| < 5 {
        out.Push("***");
      } else {
        out.Push(iter.data);
      }
      assert CensorAll(input[..k + 1]) == CensorAll(input[..k]) + [Censor(input[k])];
      k := k + 1;
      iter := inp.Pop();
    }
    assert input[..k] == input || k == 0;
    exit := if iter == Null then Finished else Waiting;
  }

  /** The inner loop of `upper`: every character of the line replaced by
      its upper case, in place. */
  method UpperInPlace(line: array<char>)
    requires forall j :: 0 <= j < line.Length ==> line[j] as int < 256
    modifies line
    ensures line[..] == UpperLine(old(line[..]))
  {
    for k := 0 to line.Length
      invariant forall j :: 0 <= j < k ==> line[j] == ToUpper(old(line[j]))
      invariant forall j :: k <= j < line.Length ==> line[j] == old(line[j])
    {
      line[k] := ToUpper(line[k]);
    }
  }

  /** A copy of the line, upper-cased by the in-place loop. */
  method UpperCopy(line: Line) returns (u: Line)
    ensures u == UpperLine(line)
  {
    var chars := new char[|line|](j requires 0 <= j < |line| => line[j]);
    assert chars[..] == line;
    UpperInPlace(chars);
    u := chars[..];
  }

  /** `upper`: every popped line is pushed on upper-cased; a stopped input
      ends it at once, as for `filter`. */
  method Upper(inp: In<Line>, out: Out<Line>) returns (exit: StageExit)
    requires inp.queue != out.queue
    modifies inp.queue, out.queue
    ensures inp.queue.stopped == old(inp.queue.stopped) && out.queue.stopped == old(out.queue.stopped)
    ensures old(inp.queue.stopped) ==>
      exit == Finished && inp.queue.items == old(inp.queue.items) && out.queue.items == old(out.queue.items)
    ensures !old(inp.queue.stopped) ==>
      exit == Waiting && inp.queue.items == [] && out.queue.items == old(out.queue.items) + UpperAll(old(inp.queue.items))
  {
    ghost var input := inp.queue.items;
    ghost var k := 0;
    var iter := inp.Pop();
    while iter.Item?
      invariant 0 <= k <= |input| && inp.queue.stopped == old(inp.queue.stopped)
      invariant iter.Item? ==> !inp.queue.stopped && k < |input| && iter.data == input[k] && inp.queue.items == input[k + 1..]
      invariant !iter.Item? && inp.queue.stopped ==> iter == Null && k == 0 && inp.queue.items == input
      invariant !iter.Item? && !inp.queue.stopped ==> iter == Blocked && k == |input| && inp.queue.items == []
      invariant out.queue.items == old(out.queue.items) + UpperAll(input[..k])
      invariant out.queue.stopped == old(out.queue.stopped)
      decreases |inp.queue.items| + (if iter.Item? then 1 else 0)
    {
      var line := UpperCopy(iter.data);
      out.Push(line);
      assert UpperAll(input[..k + 1]) == UpperAll(input[..k]) + [UpperLine(input[k])];
      k := k + 1;
      iter := inp.Pop();
    }
    assert input[..k] == input || k == 0;
    exit := if iter == Null then Finished else Waiting;
  }

  /** `writer`, entered with its counter at `count` (0 when the stage
      starts): the popped lines, labelled in order from `count`; a stopped
      input prints nothing and leaves its lines queued. */
  method Writer(inp: In<Line>, count: nat) returns (printed: seq<Line>, exit: StageExit)
    modifies inp.queue
    ensures inp.queue.stopped == old(inp.queue.stopped)
    ensures old(inp.queue.stopped) ==> exit == Finished && printed == [] && inp.queue.items == old(inp.queue.items)
    ensures !old(inp.queue.stopped) ==>
      exit == Waiting && printed == Labelled(count, old(inp.queue.items)) && inp.queue.items == []
  {
    ghost var input := inp.queue.items;
    printed := [];
    var n: nat := 0;
    while true
      invariant n <= |input| && inp.queue.items == input[n..]
      invariant inp.queue.stopped == old(inp.queue.stopped)
      invariant inp.queue.stopped ==> n == 0
      invariant printed == Labelled(count, input[..n])
      decreases |inp.queue.items|
    {
      var ptr := inp.Pop();
      if !ptr.Item? {
        assert input[..n] == input || n == 0;
        return printed, if ptr == Null then Finished else Waiting;
      }
      assert Labelled(count, input[..n + 1]) == Labelled(count, input[..n]) + [Label(count + n, input[n])];
      printed := printed + [Label(count + n, ptr.data)];
      n := n + 1;
    }
  }

  /** One pipe: a new queue with its two ends. */
  method NewPipe() returns (inp: In<Line>, out: Out<Line>)
    ensures fresh(inp) && fresh(out) && fresh(inp.queue) && out.queue == inp.queue
    ensures inp.queue.items == [] && !inp.queue.stopped
  {
    var q := new Queue<Line>();
    inp := new In(q);
    out := new Out(q);
  }

  /** The whole pipeline on a given input when every stage keeps pace with
      the one before it: each stage takes all that is queued for it before
      the upstream stage's wrapper stops its queue, and is woken by that
      `stop` to finish.  Every input line then reaches the writer once,
      censored and upper-cased, numbered from 0, and every stage
      finishes. */
  method RunPipeline(input: seq<Line>) returns (printed: seq<Line>, allFinished: bool)
    ensures printed == Labelled(0, UpperAll(CensorAll(input)))
    ensures allFinished
  {
    var in1, out1 := NewPipe();
    var in2, out2 := NewPipe();
    var in3, out3 := NewPipe();
    ghost var q1, q2, q3 := in1.queue, in2.queue, in3.queue;
    Reader(input, out1);
    assert q1.items == input && !q1.stopped && q2.items == [] && !q2.stopped && q3.items == [] && !q3.stopped;
    var e1 := Filter(in1, out2);
    assert q1.items == [] && q2.items == CensorAll(input) && !q2.stopped && q3.items == [] && !q3.stopped;
    var e2 := Upper(in2, out3);
    assert q2.items == [] && q3.items == UpperAll(CensorAll(input)) && !q3.stopped;
    var e3;
    printed, e3 := Writer(in3, 0);
    assert q1.items == [] && !q1.stopped && q2.items == [] && !q2.stopped && q3.items == [] && !q3.stopped;
    out1.Stop();
    e1 := Filter(in1, out2);
    out2.Stop();
    e2 := Upper(in2, out3);
    out3.Stop();
    var tail;
    tail, e3 := Writer(in3, |input|);
    assert tail == [];
    printed := printed + tail;
    allFinished := e1 == Finished && e2 == Finished && e3 == Finished;
  }

  /** The pipeline when each stage first pops only after the stage before
      it has finished and stopped its queue: every pop as written is null,
      so the writer prints nothing and all input lines stay in the first
      queue. */
  method StopFirstLosesAll(input: seq<Line>) returns (printed: seq<Line>, stranded: seq<Line>)
    ensures printed == [] && stranded == input
  {
    var in1, out1 := NewPipe();
    var in2, out2 := NewPipe();
    var in3, out3 := NewPipe();
    ghost var q1, q2, q3 := in1.queue, in2.queue, in3.queue;
    Reader(input, out1);
    out1.Stop();
    var e1 := Filter(in1, out2);
    out2.Stop();
    var e2 := Upper(in2, out3);
    out3.Stop();
    var e3;
    printed, e3 := Writer(in3, 0);
    stranded := in1.queue.items;
  }
}
