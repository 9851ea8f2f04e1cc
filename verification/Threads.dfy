/** How many goroutines are at a given point. */
module Threads {
  function At<Pc(==)>(threads: map<nat, Pc>, pc: Pc): set<nat> {
    set t | t in threads && threads[t] == pc
  }

  function CountAt<Pc(==)>(threads: map<nat, Pc>, pc: Pc): nat {
    |At(threads, pc)|
  }

  lemma CountWithout<Pc>(threads: map<nat, Pc>, t: nat, pc: Pc)
    ensures CountAt(threads, pc)
         == CountAt(threads - {t}, pc) + if t in threads && threads[t] == pc then 1 else 0
  {
    var with, without := At(threads, pc), At(threads - {t}, pc);
    if t in threads && threads[t] == pc {
      assert with == without + {t} && t !in without;
    } else {
      assert with == without;
    }
  }

  /** One goroutine moves on. */
  lemma CountMoved<Pc>(threads: map<nat, Pc>, t: nat, to: Pc, pc: Pc)
    ensures CountAt(threads[t := to], pc) == CountAt(threads - {t}, pc) + if to == pc then 1 else 0
  {
    CountWithout(threads[t := to], t, pc);
    assert threads[t := to] - {t} == threads - {t};
  }
}
