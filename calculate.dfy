/** The two coroutine bodies of examples/stackful_coroutine/calculate.cpp and
    the schedule the `Looper` gives them.  Each body prints one line per
    iteration and then yields through the looper; a printed line is
    modelled as the pair (index, value) and the yields as the number of
    lines. */
module Calculate {
  import opened CoContext
  import opened CoExecutor
  import opened CoCoroutine

  function Fib(n: nat): nat
  {
    if n < 2 then n else Fib(n - 1) + Fib(n - 2)
  }

  /** Reducing the summands modulo 2^64 first gives the same sum modulo
      2^64: the `size_t` addition of the table entries. */
  lemma ModAdd(a: nat, b: nat)
    ensures (a % ADDRESS_SPACE + b % ADDRESS_SPACE) % ADDRESS_SPACE == (a + b) % ADDRESS_SPACE
  {
    var qa, qb := a / ADDRESS_SPACE, b / ADDRESS_SPACE;
    assert a == qa * ADDRESS_SPACE + a % ADDRESS_SPACE;
    assert b == qb * ADDRESS_SPACE + b % ADDRESS_SPACE;
    assert a + b == (qa + qb) * ADDRESS_SPACE + (a % ADDRESS_SPACE + b % ADDRESS_SPACE);
  }

  /** The slot `i & 3` the loop writes differs from the two it reads. */
  lemma RingSlots(i: nat)
    requires i >= 2
    ensures i % 4 != (i - 1) % 4 && i % 4 != (i - 2) % 4
    ensures ((i + 1) - 1) % 4 == i % 4 && ((i + 1) - 2) % 4 == (i - 1) % 4
  {
  }

  /** The slot the loop writes holds the next Fibonacci number modulo 2^64. */
  lemma FibSlot(i: nat)
    requires i >= 2
    ensures (Fib(i - 1) % ADDRESS_SPACE + Fib(i - 2) % ADDRESS_SPACE) % ADDRESS_SPACE == Fib(i) % ADDRESS_SPACE
  {
    ModAdd(Fib(i - 1), Fib(i - 2));
  }

  /** The fibonacci coroutine: a four-slot ring `table` seeded with 0 and 1;
      for `i` in `[2, n + 2)` slot `i & 3` gets the sum of the two slots
      before it (in `size_t`, so modulo 2^64), and the line `(i - 2,
      table[i & 3])` is printed.  Line `k` is therefore the (k+2)-th
      Fibonacci number modulo 2^64. */
  method FibonacciBody(n: Word) returns (lines: seq<(nat, Word)>)
    requires n + 2 < ADDRESS_SPACE
    ensures |lines| == n
    ensures forall k :: 0 <= k < n ==> lines[k] == (k, Fib(k + 2) % ADDRESS_SPACE)
  {
    var table := new Word[4](_ => 0);
    table[1] := 1;
    lines := [];
    for i := 2 to n + 2
      invariant table[(i - 1) % 4] == Fib(i - 1) % ADDRESS_SPACE
      invariant table[(i - 2) % 4] == Fib(i - 2) % ADDRESS_SPACE
      invariant |lines| == i - 2
      invariant forall k :: 0 <= k < i - 2 ==> lines[k] == (k, Fib(k + 2) % ADDRESS_SPACE)
    {
      RingSlots(i);
      FibSlot(i);
      table[i % 4] := (table[(i - 1) % 4] + table[(i - 2) % 4]) % ADDRESS_SPACE;
      lines := lines + [(i - 2, table[i % 4])];
    }
  }

  /** With `n = 7` the fibonacci coroutine prints 1, 2, 3, 5, 8, 13, 21. */
  lemma FibonacciSeven()
    ensures forall k: nat :: k < 7 ==> Fib(k + 2) % ADDRESS_SPACE == [1, 2, 3, 5, 8, 13, 21][k]
  {
    assert Fib(2) == 1 && Fib(3) == 2 && Fib(4) == 3 && Fib(5) == 5;
    assert Fib(6) == 8 && Fib(7) == 13 && Fib(8) == 21;
  }

  /** The constant table of the stirling coroutine. */
  const STIRLING: seq<nat> := [1, 3, 13, 75, 541, 4683, 47293, 545835, 7087261]

  /** The stirling coroutine: prints `(i, table[i])` for every index of the
      table, yielding after each line. */
  method StirlingBody() returns (lines: seq<(nat, nat)>)
    ensures |lines| == |STIRLING|
    ensures forall i :: 0 <= i < |STIRLING| ==> lines[i] == (i, STIRLING[i])
  {
    lines := [];
    for i := 0 to |STIRLING|
      invariant |lines| == i
      invariant forall k :: 0 <= k < i ==> lines[k] == (k, STIRLING[k])
    {
      lines := lines + [(i, STIRLING[i])];
    }
  }

  /** The program: `execute` runs each coroutine up to its first yield, so
      when the looper is destroyed fibonacci (7 lines) owes 6 more yields
      and stirling (9 lines) owes 8.  The looper then alternates them six
      times and lets stirling print its last two lines alone; every line is
      printed exactly once. */
  lemma CalculateSchedule(f: Coroutine, s: Coroutine)
    requires f != s
    ensures RoundRobin([Pending(f, 7 - 1), Pending(s, |STIRLING| - 1)])
         == Alternate(f, s, 6) + Repeat(s, 2)
    ensures 1 + multiset(RoundRobin([Pending(f, 6), Pending(s, 8)]))[f] == 7
    ensures 1 + multiset(RoundRobin([Pending(f, 6), Pending(s, 8)]))[s] == |STIRLING|
  {
    TwoAlternate(f, s, 6, 2);
    var q := [Pending(f, 6), Pending(s, 8)];
    RoundRobinFair(q, f);
    RoundRobinFair(q, s);
    assert q[1..][1..] == [];
    assert Owed(q, f) == 6 + Owed(q[1..], f);
    assert Owed(q[1..], f) == 0 + Owed(q[1..][1..], f);
    assert Owed(q, s) == 0 + Owed(q[1..], s);
    assert Owed(q[1..], s) == 8 + Owed(q[1..][1..], s);
  }
}
