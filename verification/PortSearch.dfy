/** Looking for a free port by jumping up 42 below 60000 and down 43 from there on. */
module PortSearch {

  function Next(port: int): int {
    if port < 60000 then port + 42 else port - 43
  }

  /** The port that the search tries after k jumps. */
  function Walk(port: int, k: nat): int {
    if k == 0 then port else Next(Walk(port, k - 1))
  }

  /** The search ends with the first free port of the walk. It is only run to completion where it can end. */
  method FindPort(start: int, free: int -> bool) returns (port: int, ghost jumps: nat)
    requires exists k: nat :: Tries(start, free, k)
    ensures free(port) && port == Walk(start, jumps)
    ensures forall k :: 0 <= k < jumps ==> !free(Walk(start, k))
  {
    port, jumps := start, 0;
    ghost var last: nat :| Tries(start, free, last);
    while !free(port)
      invariant port == Walk(start, jumps) && jumps <= last
      invariant forall k :: 0 <= k < jumps ==> !free(Walk(start, k))
      decreases last - jumps
    {
      if port < 60000 {
        port := port + 42;
      } else {
        port := port - 43;
      }
      jumps := jumps + 1;
    }
  }

  ghost predicate Tries(start: int, free: int -> bool, k: nat) {
    free(Walk(start, k))
  }

  // ---- The window that no walk leaves ----

  const LOW := 59957
  const SIZE := 85

  predicate InWindow(port: int) {
    LOW <= port < LOW + SIZE
  }

  /** Inside the window every jump is the same rotation. */
  lemma JumpRotates(port: int)
    requires InWindow(port)
    ensures InWindow(Next(port)) && Next(port) - LOW == (port - LOW + 42) % SIZE
  {
  }

  lemma WalkAppend(port: int, j: nat, k: nat)
    ensures Walk(Walk(port, j), k) == Walk(port, j + k)
    decreases k
  {
    if k > 0 { WalkAppend(port, j, k - 1); }
  }

  /** Two jumps move one port down, around the window. */
  lemma {:induction false} EvenJumps(port: int, k: nat)
    requires InWindow(port)
    ensures InWindow(Walk(port, 2 * k)) && Walk(port, 2 * k) - LOW == (port - LOW - k) % SIZE
    ensures InWindow(Walk(port, 2 * k + 1))
    decreases k
  {
    if k > 0 {
      EvenJumps(port, k - 1);
      var before := Walk(port, 2 * k - 2);
      JumpRotates(before);
      JumpRotates(Next(before));
      assert Walk(port, 2 * k) == Next(Next(before));
      RotateBack(port - LOW, k);
    }
    JumpRotates(Walk(port, 2 * k));
  }

  lemma RotateBack(i: int, k: nat)
    requires k > 0
    ensures ((((i - (k - 1)) % SIZE) + 42) % SIZE + 42) % SIZE == (i - k) % SIZE
  {
  }

  /** From inside the window the search tries every port of the window. */
  lemma AllTried(port: int, target: int)
    requires InWindow(port) && InWindow(target)
    ensures exists k: nat :: k < 2 * SIZE && Walk(port, k) == target
  {
    var k := (port - target) % SIZE;
    EvenJumps(port, k);
    Rotations(port - LOW, target - LOW);
    assert 2 * k < 2 * SIZE && Walk(port, 2 * k) == target;
  }

  lemma Rotations(i: int, j: int)
    requires 0 <= i < SIZE && 0 <= j < SIZE
    ensures (i - (i - j) % SIZE) % SIZE == j
  {
  }

  /** The number of jumps before a walk is inside the window: no jump passes over it. */
  function Entry(port: int): (k: nat)
    ensures InWindow(Walk(port, k))
    ensures forall j :: 0 <= j < k ==> !InWindow(Walk(port, j))
    decreases if InWindow(port) then 0 else if port < LOW then LOW - port else port - LOW
  {
    if InWindow(port) then 0
    else
      var k := Entry(Next(port));
      assert forall j: nat :: j <= k ==> Walk(port, j + 1) == Walk(Next(port), j) by { Shift(port, k); }
      assert forall j: nat :: 0 < j <= k ==> Walk(port, j) == Walk(Next(port), j - 1);
      k + 1
  }

  lemma {:induction false} Shift(port: int, k: nat)
    ensures forall j: nat :: j <= k ==> Walk(port, j + 1) == Walk(Next(port), j)
  {
    if k > 0 { Shift(port, k - 1); }
  }

  lemma {:induction false} StaysInWindow(port: int, j: nat, k: nat)
    requires j <= k && InWindow(Walk(port, j))
    ensures InWindow(Walk(port, k))
    decreases k
  {
    if j < k {
      StaysInWindow(port, j, k - 1);
      JumpRotates(Walk(port, k - 1));
    }
  }

  /** The search ends exactly when some port of the window is free, or a port it tries on its way there. */
  lemma EndsIff(start: int, free: int -> bool)
    ensures (exists k: nat :: Tries(start, free, k))
            <==> (exists port :: InWindow(port) && free(port)) || (exists k: nat :: k < Entry(start) && Tries(start, free, k))
  {
    if port :| InWindow(port) && free(port) {
      var entry := Entry(start);
      AllTried(Walk(start, entry), port);
      var k: nat :| k < 2 * SIZE && Walk(Walk(start, entry), k) == port;
      WalkAppend(start, entry, k);
      assert Tries(start, free, entry + k);
    }
    if k: nat :| Tries(start, free, k) && k >= Entry(start) {
      StaysInWindow(start, Entry(start), k);
    }
  }

  /** With a free port in the window the search makes fewer than 170 jumps more than it takes to get there. */
  lemma JumpsBounded(start: int, free: int -> bool, jumps: nat)
    requires exists port :: InWindow(port) && free(port)
    requires forall k :: 0 <= k < jumps ==> !free(Walk(start, k))
    ensures jumps < Entry(start) + 2 * SIZE
  {
    var port :| InWindow(port) && free(port);
    var entry := Entry(start);
    AllTried(Walk(start, entry), port);
    var k: nat :| k < 2 * SIZE && Walk(Walk(start, entry), k) == port;
    WalkAppend(start, entry, k);
  }
}
