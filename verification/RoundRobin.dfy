/** The value-level theory of the ready queue and its round-robin cursor
    (proc/scheduler.c): which thread is chosen next, and how long a given thread
    can be kept waiting. */
module RoundRobin {
  import opened Wrappers

  ghost predicate Distinct<T>(q: seq<T>) {
    forall i, j :: 0 <= i < j < |q| ==> q[i] != q[j]
  }

  /** q without its first occurrence of x. */
  function Without<T(==)>(q: seq<T>, x: T): (r: seq<T>) {
    if q == [] then []
    else if q[0] == x then q[1..]
    else [q[0]] + Without(q[1..], x)
  }

  function IndexOf<T(==)>(q: seq<T>, x: T): (i: nat)
    requires x in q
    ensures i < |q| && q[i] == x
  {
    if q[0] == x then 0 else 1 + IndexOf(q[1..], x)
  }

  lemma {:induction false} IndexUnique<T>(q: seq<T>, i: nat)
    requires Distinct(q) && i < |q|
    ensures IndexOf(q, q[i]) == i
  {
    var k := IndexOf(q, q[i]);
  }

  lemma {:induction false} WithoutAt<T>(q: seq<T>, i: nat)
    requires Distinct(q) && i < |q|
    ensures Without(q, q[i]) == q[..i] + q[i + 1..]
  {
    if i > 0 {
      WithoutAt(q[1..], i - 1);
      assert q[1..][i - 1] == q[i] && q[0] != q[i];
      assert [q[0]] + q[1..][..i - 1] == q[..i];
      assert q[1..][i - 1 + 1..] == q[i + 1..];
    }
  }

  lemma {:induction false} WithoutAbsent<T>(q: seq<T>, x: T)
    requires x !in q
    ensures Without(q, x) == q
  {
    if q != [] {
      WithoutAbsent(q[1..], x);
    }
  }

  lemma {:induction false} WithoutElements<T>(q: seq<T>, x: T)
    requires Distinct(q)
    ensures Distinct(Without(q, x))
    ensures forall y :: y in Without(q, x) <==> y in q && y != x
  {
    if x in q {
      var i := IndexOf(q, x);
      WithoutAt(q, i);
      assert q == q[..i] + [x] + q[i + 1..];
    } else {
      WithoutAbsent(q, x);
    }
  }

  // ----- the scheduler's state and steps -----

  datatype Ready<T> = Ready(q: seq<T>, cursor: Option<T>)

  ghost predicate ReadyOk<T>(s: Ready<T>) {
    Distinct(s.q) && (s.cursor.Some? ==> s.cursor.value in s.q)
  }

  /** rr_next: the thread after the cursor, the head after the tail or when the
      cursor is NULL; nothing if the queue is empty. */
  function RrNext<T(==)>(s: Ready<T>): (c: Option<T>)
    requires s.cursor.Some? ==> s.cursor.value in s.q
  {
    if s.q == [] then None
    else if s.cursor.None? || s.cursor.value == s.q[|s.q| - 1] then Some(s.q[0])
    else
      var i := IndexOf(s.q, s.cursor.value);
      if i + 1 < |s.q| then Some(s.q[i + 1]) else None
  }

  function Admit<T>(s: Ready<T>, x: T): (r: Ready<T>) {
    Ready(s.q + [x], s.cursor)
  }

  /** sched_remove: when the current thread goes, the cursor steps back to its
      predecessor, or to NULL if it had none. */
  function Remove<T(==)>(s: Ready<T>, x: T): (r: Ready<T>) {
    var cursor :=
      if s.cursor == Some(x) && x in s.q then
        var i := IndexOf(s.q, x);
        if i == 0 then None else Some(s.q[i - 1])
      else s.cursor;
    Ready(Without(s.q, x), cursor)
  }

  lemma RemoveOk<T>(s: Ready<T>, x: T)
    requires ReadyOk(s)
    ensures ReadyOk(Remove(s, x))
  {
    WithoutElements(s.q, x);
  }

  lemma NextOk<T>(s: Ready<T>)
    requires ReadyOk(s)
    ensures ReadyOk(s.(cursor := RrNext(s)))
    ensures RrNext(s).None? <==> s.q == []
  {
    if s.q != [] && s.cursor.Some? && s.cursor.value != s.q[|s.q| - 1] {
      var i := IndexOf(s.q, s.cursor.value);
    }
  }

  // ----- fairness -----

  /** The number of rr_next calls up to and including the one that chooses p, if
      nothing else happens. */
  function Distance<T(==)>(s: Ready<T>, p: T): (d: int)
    requires p in s.q && (s.cursor.Some? ==> s.cursor.value in s.q)
  {
    var i := IndexOf(s.q, p);
    if s.cursor.None? then i + 1
    else
      var c := IndexOf(s.q, s.cursor.value);
      if c < i then i - c else i - c + |s.q|
  }

  /** One rr_next either chooses p, which was exactly one step away, or brings p
      exactly one step nearer. */
  lemma DistanceNext<T>(s: Ready<T>, p: T)
    requires ReadyOk(s) && p in s.q
    ensures 1 <= Distance(s, p) <= |s.q|
    ensures RrNext(s) == Some(p) <==> Distance(s, p) == 1
    ensures ReadyOk(s.(cursor := RrNext(s)))
    ensures RrNext(s) != Some(p) ==> Distance(s.(cursor := RrNext(s)), p) == Distance(s, p) - 1
  {
    NextOk(s);
    var n := |s.q|;
    IndexUnique(s.q, n - 1);
    IndexUnique(s.q, 0);
    if s.cursor.Some? {
      var c := IndexOf(s.q, s.cursor.value);
      if c + 1 < n {
        IndexUnique(s.q, c + 1);
      }
    }
  }

  /** How removing x moves p towards the cursor. */
  ghost predicate Between<T>(s: Ready<T>, x: T, p: T)
    requires ReadyOk(s) && p in s.q && x in s.q
  {
    Distance(s, x) < Distance(s, p) && s.cursor != Some(x)
  }

  /** Removing another thread never sends p back: it moves one nearer if x was
      ahead of it, and keeps its place otherwise, in particular when x is the
      current thread. */
  lemma DistanceRemove<T>(s: Ready<T>, x: T, p: T)
    requires ReadyOk(s) && p in s.q && x != p
    ensures ReadyOk(Remove(s, x)) && p in Remove(s, x).q
    ensures Distance(Remove(s, x), p) ==
            Distance(s, p) - if x in s.q && Between(s, x, p) then 1 else 0
  {
    hide Without, Distinct;
    RemoveOk(s, x);
    WithoutElements(s.q, x);
    if x !in s.q {
      WithoutAbsent(s.q, x);
    } else if s.cursor == Some(x) {
      RemoveCurrent(s, x, p);
    } else {
      RemoveOther(s, x, p);
    }
  }

  lemma RemoveCurrent<T>(s: Ready<T>, x: T, p: T)
    requires ReadyOk(s) && p in s.q && x in s.q && x != p && s.cursor == Some(x)
    ensures ReadyOk(Remove(s, x)) && p in Remove(s, x).q
    ensures Distance(Remove(s, x), p) == Distance(s, p)
  {
    hide Without, Distinct;
    RemoveOk(s, x);
    var k := IndexOf(s.q, x);
    IndexAfter(s.q, k, IndexOf(s.q, p));
    WithoutLength(s.q, k);
    if k > 0 {
      IndexAfter(s.q, k, k - 1);
    }
  }

  lemma RemoveOther<T>(s: Ready<T>, x: T, p: T)
    requires ReadyOk(s) && p in s.q && x in s.q && x != p && s.cursor != Some(x)
    ensures ReadyOk(Remove(s, x)) && p in Remove(s, x).q
    ensures Distance(Remove(s, x), p) == Distance(s, p) - if Between(s, x, p) then 1 else 0
  {
    hide Without, Distinct;
    RemoveOk(s, x);
    var k := IndexOf(s.q, x);
    IndexAfter(s.q, k, IndexOf(s.q, p));
    WithoutLength(s.q, k);
    if s.cursor.Some? {
      IndexAfter(s.q, k, IndexOf(s.q, s.cursor.value));
    }
  }

  lemma WithoutLength<T>(q: seq<T>, k: nat)
    requires Distinct(q) && k < |q|
    ensures |Without(q, q[k])| == |q| - 1
  {
    WithoutAt(q, k);
  }

  lemma IndexAfter<T>(q: seq<T>, k: nat, i: nat)
    requires Distinct(q) && k < |q| && i < |q| && i != k
    ensures q[i] in Without(q, q[k])
    ensures IndexOf(Without(q, q[k]), q[i]) == if i < k then i else i - 1
  {
    hide Without, Distinct, IndexOf;
    WithoutAt(q, k);
    WithoutElements(q, q[k]);
    LeftOut(q, k, i);
    IndexUnique(q[..k] + q[k + 1..], if i < k then i else i - 1);
  }

  lemma LeftOut<T>(q: seq<T>, k: nat, i: nat)
    requires k < |q| && i < |q| && i != k
    ensures var r := q[..k] + q[k + 1..]; |r| == |q| - 1 && r[if i < k then i else i - 1] == q[i]
  {
  }

  /** Admitting a thread sends p back by at most one, and by one only if the
      cursor still has to pass the tail before it reaches p. */
  lemma DistanceAdmit<T>(s: Ready<T>, x: T, p: T)
    requires ReadyOk(s) && p in s.q && x !in s.q
    ensures ReadyOk(Admit(s, x)) && p in Admit(s, x).q
    ensures Distance(Admit(s, x), p) ==
            Distance(s, p) + if s.cursor.Some? && IndexOf(s.q, p) <= IndexOf(s.q, s.cursor.value) then 1 else 0
  {
    var q' := s.q + [x];
    assert q'[IndexOf(s.q, p)] == p;
    IndexUnique(q', IndexOf(s.q, p));
    if s.cursor.Some? {
      assert q'[IndexOf(s.q, s.cursor.value)] == s.cursor.value;
      IndexUnique(q', IndexOf(s.q, s.cursor.value));
    }
  }

  datatype Event<T> = Next | Admitted(x: T) | Removed(x: T)

  function StepOn<T(==)>(s: Ready<T>, e: Event<T>): (r: Ready<T>)
    requires s.cursor.Some? ==> s.cursor.value in s.q
  {
    match e
    case Next => s.(cursor := RrNext(s))
    case Admitted(x) => Admit(s, x)
    case Removed(x) => Remove(s, x)
  }

  /** The step leaves p waiting: it is not chosen and not removed. */
  ghost predicate Passes<T>(s: Ready<T>, e: Event<T>, p: T)
    requires ReadyOk(s)
  {
    match e
    case Next => RrNext(s) != Some(p)
    case Admitted(x) => x !in s.q
    case Removed(x) => x != p
  }

  lemma PassesOk<T>(s: Ready<T>, e: Event<T>, p: T)
    requires ReadyOk(s) && Passes(s, e, p)
    ensures ReadyOk(StepOn(s, e))
  {
    match e
    case Next => NextOk(s);
    case Admitted(x) =>
    case Removed(x) => RemoveOk(s, x);
  }

  /** A run in which p is never chosen and never removed. */
  ghost predicate Starves<T>(s: Ready<T>, es: seq<Event<T>>, p: T)
    requires ReadyOk(s)
    decreases |es|
  {
    es == [] || (Passes(s, es[0], p) && (PassesOk(s, es[0], p); Starves(StepOn(s, es[0]), es[1..], p)))
  }

  function Nexts<T>(es: seq<Event<T>>): (n: nat) {
    if es == [] then 0 else (if es[0].Next? then 1 else 0) + Nexts(es[1..])
  }

  function Admits<T>(es: seq<Event<T>>): (n: nat) {
    if es == [] then 0 else (if es[0].Admitted? then 1 else 0) + Admits(es[1..])
  }

  /** Fairness: in any run that leaves p waiting there are fewer rr_next calls
      than p's initial distance plus the number of threads admitted meanwhile. */
  lemma {:induction false} Fairness<T>(s: Ready<T>, es: seq<Event<T>>, p: T)
    requires ReadyOk(s) && p in s.q && Starves(s, es, p)
    ensures Nexts(es) < Distance(s, p) + Admits(es)
    decreases |es|
  {
    DistanceNext(s, p);
    if es != [] {
      PassesOk(s, es[0], p);
      match es[0] {
        case Next =>
        case Admitted(x) => DistanceAdmit(s, x, p);
        case Removed(x) => DistanceRemove(s, x, p);
      }
      Fairness(StepOn(s, es[0]), es[1..], p);
    }
  }
}
