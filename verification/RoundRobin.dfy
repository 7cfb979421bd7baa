/** Choosing the next loop: LoopThreadPool::NextLoop and EventLoopThreadPool::getNextLoop. */
module RoundRobin {

  /** The loop after loop i, of n. */
  function Succ(n: nat, i: nat): nat {
    if i + 1 >= n then 0 else i + 1
  }

  /** The loop k steps after `start`. */
  function Choice(n: nat, start: nat, k: nat): (i: nat)
    requires start < n
    ensures i < n
  {
    if k == 0 then start else Succ(n, Choice(n, start, k - 1))
  }

  /** The modulo form and the wrap-to-zero form of a step agree. */
  lemma SuccIsModulo(n: nat, i: nat)
    requires i < n
    ensures (i + 1) % n == Succ(n, i)
  {
    if i + 1 < n {
      SmallModulo(i + 1, n);
    }
  }

  lemma SmallModulo(a: nat, n: nat)
    requires a < n
    ensures a % n == a
  {
  }

  class LoopThreadPool {
    const threadCount: nat
    var nextIdx: nat
    ghost var calls: nat

    ghost predicate Valid()
      reads this
    {
      threadCount > 0 ==> nextIdx == Choice(threadCount, 0, calls)
    }

    constructor (count: nat)
      ensures Valid() && threadCount == count && calls == 0
    {
      threadCount, nextIdx, calls := count, 0, 0;
    }

    /** The k-th call, counting from 0, chooses loop k + 1 of the round; -1 stands for the base loop. */
    method NextLoop() returns (loop: int)
      requires Valid()
      modifies this
      ensures Valid() && calls == old(calls) + 1
      ensures loop == if threadCount == 0 then -1 else Choice(threadCount, 0, old(calls) + 1)
    {
      calls := calls + 1;
      if threadCount == 0 {
        return -1;
      }
      SuccIsModulo(threadCount, nextIdx);
      nextIdx := (nextIdx + 1) % threadCount;
      loop := nextIdx;
    }
  }

  class EventLoopThreadPool {
    const loopCount: nat
    var next: nat
    ghost var calls: nat

    ghost predicate Valid()
      reads this
    {
      loopCount > 0 ==> next == Choice(loopCount, 0, calls)
    }

    constructor (count: nat)
      ensures Valid() && loopCount == count && calls == 0
    {
      loopCount, next, calls := count, 0, 0;
    }

    /** The k-th call, counting from 0, chooses loop k of the round. */
    method GetNextLoop() returns (loop: int)
      requires Valid()
      modifies this
      ensures Valid() && calls == old(calls) + 1
      ensures loop == if loopCount == 0 then -1 else Choice(loopCount, 0, old(calls))
    {
      loop := -1;
      calls := calls + 1;
      if loopCount > 0 {
        loop := next;
        next := next + 1;
        if next >= loopCount {
          next := 0;
        }
      }
    }
  }

  /** How often loop i is chosen in k successive calls, the first of which chooses `start`. */
  function Times(n: nat, start: nat, i: nat, k: nat): nat
    requires start < n
  {
    if k == 0 then 0 else Times(n, start, i, k - 1) + (if Choice(n, start, k - 1) == i then 1 else 0)
  }

  /** Steps from `start` to i, going round. */
  function Distance(n: nat, start: nat, i: nat): int {
    if i >= start then i - start else i - start + n
  }

  lemma {:induction false} ChoiceWraps(n: nat, start: nat, k: nat)
    requires start < n && k <= n
    ensures Choice(n, start, k) == if start + k < n then start + k else start + k - n
  {
    if k > 0 {
      ChoiceWraps(n, start, k - 1);
    }
  }

  /** Part of a round chooses exactly the loops it has come past, each once. */
  lemma {:induction false} PartRound(n: nat, start: nat, i: nat, k: nat)
    requires start < n && i < n && k <= n
    ensures Times(n, start, i, k) == if Distance(n, start, i) < k then 1 else 0
    decreases k
  {
    if k > 0 {
      PartRound(n, start, i, k - 1);
      ChoiceWraps(n, start, k - 1);
    }
  }

  /** The choices after j calls are those of a round that starts at the j-th choice. */
  lemma {:induction false} ChoiceShift(n: nat, start: nat, j: nat, k: nat)
    requires start < n
    ensures Choice(n, start, j + k) == Choice(n, Choice(n, start, j), k)
    decreases k
  {
    if k > 0 {
      ChoiceShift(n, start, j, k - 1);
    }
  }

  lemma {:induction false} RoundReturns(n: nat, start: nat, k: nat)
    requires start < n
    ensures Choice(n, start, n + k) == Choice(n, start, k)
  {
    if k == 0 {
      ChoiceWraps(n, start, n);
    } else {
      RoundReturns(n, start, k - 1);
    }
  }

  lemma {:induction false} OneRoundMore(n: nat, start: nat, i: nat, k: nat)
    requires start < n && i < n
    ensures Times(n, start, i, n + k) == 1 + Times(n, start, i, k)
    decreases k
  {
    if k == 0 {
      PartRound(n, start, i, n);
    } else {
      OneRoundMore(n, start, i, k - 1);
      RoundReturns(n, start, k - 1);
    }
  }

  /** So many whole rounds of n calls, and the rest of one. */
  function Calls(n: nat, rounds: nat, rest: nat): nat {
    if rounds == 0 then rest else n + Calls(n, rounds - 1, rest)
  }

  lemma {:induction false} CallsIsProduct(n: nat, rounds: nat, rest: nat)
    ensures Calls(n, rounds, rest) == rounds * n + rest
  {
    if rounds > 0 {
      CallsIsProduct(n, rounds - 1, rest);
      assert rounds * n == (rounds - 1) * n + n;
    }
  }

  lemma {:induction false} BalancedRounds(n: nat, start: nat, i: nat, rounds: nat, rest: nat)
    requires start < n && i < n && rest < n
    ensures Times(n, start, i, Calls(n, rounds, rest)) == rounds + if Distance(n, start, i) < rest then 1 else 0
    decreases rounds
  {
    if rounds == 0 {
      PartRound(n, start, i, rest);
    } else {
      BalancedRounds(n, start, i, rounds - 1, rest);
      OneRoundMore(n, start, i, Calls(n, rounds - 1, rest));
    }
  }

  /** Any n successive calls choose every loop exactly once, and any k calls k / n times or once more. */
  lemma Balanced(n: nat, start: nat, i: nat, k: nat)
    requires start < n && i < n
    ensures Times(n, start, i, n) == 1
    ensures Times(n, start, i, k) == k / n + if Distance(n, start, i) < k % n then 1 else 0
  {
    PartRound(n, start, i, n);
    CallsIsProduct(n, k / n, k % n);
    Euclid(k, n);
    BalancedRounds(n, start, i, k / n, k % n);
  }

  lemma Euclid(k: nat, n: nat)
    requires n > 0
    ensures (k / n) * n + k % n == k
  {
  }
}
