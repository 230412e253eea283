/** The search for free virtual pages: locate_span of openblt/kernel/aspace.c. */
module Spans {

  const ENTRIES := 1024

  /** The n table entries from s on are unmapped. */
  ghost predicate FreeSpan(table: seq<int>, s: int, n: int) {
    0 <= s && s + n <= |table| && forall i :: s <= i < s + n ==> table[i] == 0
  }

  ghost predicate SpanExists(table: seq<int>, start: int, n: int) {
    exists s :: start <= s && FreeSpan(table, s, n)
  }

  /** The page a search starts at: 2 MB when the wish is out of range. */
  function StartAt(start: int): int {
    if start < 1 || start > 1023 then 512 else start
  }

  /**
   The first free span of n pages at or after the start.  When there is none the result is 0, unless
   the table ends in a free run, which is too short: then it is the start of that run.
   */
  method LocateSpan(table: seq<int>, wish: int, n: nat) returns (at: int)
    requires |table| == ENTRIES
    ensures n > 0 && SpanExists(table, StartAt(wish), n) ==>
      StartAt(wish) <= at && FreeSpan(table, at, n) && forall s :: StartAt(wish) <= s < at ==> !FreeSpan(table, s, n)
    ensures n > 0 && !SpanExists(table, StartAt(wish), n) ==>
      if table[ENTRIES - 1] != 0 then at == 0
      else
        && StartAt(wish) <= at < ENTRIES < at + n && FreeSpan(table, at, ENTRIES - at)
        && (at > StartAt(wish) ==> table[at - 1] != 0)
    ensures n == 0 ==> at == 0
  {
    var start := StartAt(wish);
    ghost var first := start;
    var found := 0;
    at := 0;
    while found < n && start < ENTRIES
      invariant first <= start <= ENTRIES && 0 <= found <= n
      invariant found > 0 ==>
        first <= at && at + found == start && FreeSpan(table, at, found) && (at > first ==> table[at - 1] != 0)
      invariant found == 0 ==> at == 0 && (start > first ==> table[start - 1] != 0)
      invariant n > 0 ==> forall s :: first <= s < start - found && s + n <= ENTRIES ==> !FreeSpan(table, s, n)
      decreases ENTRIES - start
    {
      if table[start] != 0 {
        assert forall s | start - found <= s <= start && s + n <= ENTRIES && n > 0 && s + n > start ::
            !FreeSpan(table, s, n) by {
          BlockedBy(table, start, n);
        }
        found, at := 0, 0;
      } else {
        if found == 0 {
          at := start;
        }
        found := found + 1;
      }
      start := start + 1;
    }
    if n > 0 && found < n {
      NoSpan(table, first, found, n);
    }
  }

  lemma BlockedBy(table: seq<int>, i: nat, n: nat)
    requires i < |table| && table[i] != 0
    ensures forall s :: s <= i < s + n ==> !FreeSpan(table, s, n)
  {
  }

  lemma NoSpan(table: seq<int>, first: int, found: int, n: nat)
    requires |table| == ENTRIES && found < n
    requires forall s :: first <= s < ENTRIES - found && s + n <= ENTRIES ==> !FreeSpan(table, s, n)
    ensures !SpanExists(table, first, n)
  {
  }

  /** With two free pages at the end of a full table, a search for three returns the second last page. */
  method TooShortAtTheEnd() returns (table: seq<int>, at: int)
    ensures |table| == ENTRIES && !SpanExists(table, StartAt(1), 3)
    ensures at == 1022 && FreeSpan(table, at, 2) && !FreeSpan(table, at, 3)
  {
    table := seq(ENTRIES, i => if i < 1022 then 1 else 0);
    forall s | 1 <= s ensures !FreeSpan(table, s, 3) {
      if s + 3 <= ENTRIES {
        assert table[s] != 0;
      }
    }
    at := LocateSpan(table, 1, 3);
    assert table[1021] != 0;
  }
}
