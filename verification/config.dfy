/** The limits of TELEP/2.0 (server/config.h) and the reply codes. */
module Config {
  const MAX_LINE := 1024
  const MAX_ARGS := 8
  const MAX_NODE_ID := 16
  const MAX_VARS := 8
  const MAX_NODES := 64
  const MAX_ALERTS := 128
  const SESSION_LIMIT := 65536

  const TEMP_MAX := 40.0
  const HUM_MAX := 85.0
  const POWER_MAX := 500.0
  const VIB_MAX := 7.0

  const REPLY_OK := 0
  const ERR_BAD_FORMAT := 100
  const ERR_UNKNOWN_COMMAND := 101
  const ERR_UNKNOWN_NODE := 102
  const ERR_TOO_LONG := 103
  const ERR_SERVER_FULL := 104
  const ERR_ID_IN_USE := 105
}

/** Small facts about finite sets and sequences that several modules share. */
module Prelude {
  datatype Option<+T> = None | Some(value: T)

  /** The members of `s` that are smaller than `n`. */
  ghost function Below(s: set<nat>, n: nat): set<nat> {
    set x | x in s && x < n
  }

  lemma {:induction false} BelowStep(s: set<nat>, n: nat)
    ensures |Below(s, n + 1)| == |Below(s, n)| + if n in s then 1 else 0
  {
    assert Below(s, n + 1) == Below(s, n) + if n in s then {n} else {};
  }

  lemma {:induction false} SubsetCardinality<T>(a: set<T>, b: set<T>)
    requires a <= b
    ensures |a| <= |b|
    ensures |a| == |b| ==> a == b
  {
    assert |b| == |a| + |b - a| by { assert b == a + (b - a); }
  }

  lemma {:induction false} BelowInsert(s: set<nat>, x: nat, n: nat)
    requires x !in s
    ensures |Below(s + {x}, n)| == |Below(s, n)| + if x < n then 1 else 0
  {
    assert Below(s + {x}, n) == Below(s, n) + if x < n then {x} else {};
  }

  /** Peeling the last element off a concatenation. */
  lemma {:induction false} SnocConcat<T>(a: seq<T>, b: seq<T>)
    requires b != []
    ensures a + b == (a + b[..|b| - 1]) + [b[|b| - 1]]
  {
  }

  lemma {:induction false} SnocInit<T>(a: seq<T>, x: T)
    ensures (a + [x])[..|a + [x]| - 1] == a && (a + [x])[|a|] == x
  {
  }

  lemma {:induction false} SameMembers<T>(a: seq<T>, b: seq<T>)
    requires multiset(a) == multiset(b)
    ensures |a| == |b| && forall x :: x in a <==> x in b
  {
    assert |a| == |multiset(a)| == |b|;
    assert forall x :: x in a <==> x in multiset(a);
    assert forall x :: x in b <==> x in multiset(b);
  }
}
