/** The first-in first-out queue that seq_queue, link_queue, the task queues and
    lcmsg_queue all stand for. */
module FifoSpec {
  import opened Common

  datatype Capacity = Unbounded | Bounded(limit: nat)

  datatype Op<T> = Put(value: T) | Get

  datatype Reply<T> = Stored | Refused | Got(value: T) | Nothing

  predicate Full<T>(q: seq<T>, cap: Capacity) {
    cap.Bounded? && |q| >= cap.limit
  }

  function Contents<T>(q: seq<T>, cap: Capacity, op: Op<T>): seq<T> {
    match op
    case Put(x) => if Full(q, cap) then q else q + [x]
    case Get => if q == [] then q else q[1..]
  }

  function Answer<T>(q: seq<T>, cap: Capacity, op: Op<T>): Reply<T> {
    match op
    case Put(x) => if Full(q, cap) then Refused else Stored
    case Get => if q == [] then Nothing else Got(q[0])
  }

  /** What a caller sees of a whole sequence of calls. */
  function Replies<T>(q: seq<T>, cap: Capacity, ops: seq<Op<T>>): (r: seq<Reply<T>>)
    ensures |r| == |ops|
    decreases |ops|
  {
    if ops == [] then [] else [Answer(q, cap, ops[0])] + Replies(Contents(q, cap, ops[0]), cap, ops[1..])
  }

  function Final<T>(q: seq<T>, cap: Capacity, ops: seq<Op<T>>): seq<T>
    decreases |ops|
  {
    if ops == [] then q else Final(Contents(q, cap, ops[0]), cap, ops[1..])
  }

  /** The values that were stored, in order, and those that were got. */
  ghost function StoredValues<T>(ops: seq<Op<T>>, r: seq<Reply<T>>): seq<T>
    requires |ops| == |r|
  {
    if ops == [] then []
    else (if ops[0].Put? && r[0] == Stored then [ops[0].value] else []) + StoredValues(ops[1..], r[1..])
  }

  ghost function GotValues<T>(r: seq<Reply<T>>): seq<T> {
    if r == [] then [] else (if r[0].Got? then [r[0].value] else []) + GotValues(r[1..])
  }

  lemma OneCall<T>(q: seq<T>, cap: Capacity, op: Op<T>, stored: seq<T>, got: seq<T>, final: seq<T>)
    requires Contents(q, cap, op) + stored == got + final
    ensures var r := Answer(q, cap, op);
            q + ((if op.Put? && r == Stored then [op.value] else []) + stored) ==
            ((if r.Got? then [r.value] else []) + got) + final
  {
    var q', r := Contents(q, cap, op), Answer(q, cap, op);
    var none: seq<T> := [];
    assert none + stored == stored && none + got == got;
    match r {
      case Stored => assert q + ([op.value] + stored) == q' + stored;
      case Got(x) => assert q + stored == [x] + (q' + stored) == [x] + (got + final);
      case _ =>
    }
  }

  /** First in, first out, nothing lost: what was there and what was stored
      comes out in that order, and the rest is still there. */
  lemma {:induction false} NothingLost<T>(q: seq<T>, cap: Capacity, ops: seq<Op<T>>)
    ensures q + StoredValues(ops, Replies(q, cap, ops)) == GotValues(Replies(q, cap, ops)) + Final(q, cap, ops)
    decreases |ops|
  {
    if ops != [] {
      var q', rest := Contents(q, cap, ops[0]), ops[1..];
      var r, r' := Replies(q, cap, ops), Replies(q', cap, rest);
      assert r[0] == Answer(q, cap, ops[0]) && r[1..] == r';
      NothingLost(q', cap, rest);
      OneCall(q, cap, ops[0], StoredValues(rest, r'), GotValues(r'), Final(q', cap, rest));
    }
  }

  /** How many of the first i calls stored something, and how many got something. */
  ghost function StoredCount<T>(r: seq<Reply<T>>, i: nat): nat
    requires i <= |r|
  {
    if i == 0 then 0 else StoredCount(r, i - 1) + if r[i - 1].Stored? then 1 else 0
  }

  ghost function GotCount<T>(r: seq<Reply<T>>, i: nat): nat
    requires i <= |r|
  {
    if i == 0 then 0 else GotCount(r, i - 1) + if r[i - 1].Got? then 1 else 0
  }

  /** The reply to a call, from the contents the calls before it left. */
  lemma {:induction false} ReplyAt<T>(q: seq<T>, cap: Capacity, ops: seq<Op<T>>, i: nat)
    requires i < |ops|
    ensures Replies(q, cap, ops)[i] == Answer(Final(q, cap, ops[..i]), cap, ops[i])
    ensures Final(q, cap, ops[..i + 1]) == Contents(Final(q, cap, ops[..i]), cap, ops[i])
    decreases i
  {
    var q' := Contents(q, cap, ops[0]);
    if i == 0 {
      assert ops[..1][1..] == [];
    } else {
      ReplyAt(q', cap, ops[1..], i - 1);
      assert ops[..i][1..] == ops[1..][..i - 1] && ops[..i + 1][1..] == ops[1..][..i];
    }
  }

  /** What is in the queue is what was stored less what was got. */
  lemma {:induction false} ContentsCounted<T>(cap: Capacity, ops: seq<Op<T>>, i: nat)
    requires i <= |ops|
    ensures var r := Replies([], cap, ops);
            |Final([], cap, ops[..i])| == StoredCount(r, i) - GotCount(r, i) &&
            (cap.Bounded? ==> |Final([], cap, ops[..i])| <= cap.limit)
  {
    if i > 0 {
      ContentsCounted(cap, ops, i - 1);
      ReplyAt([], cap, ops, i - 1);
    }
  }

  /** By the replies alone: a put is refused if and only if as much more was
      stored than got as the queue has places, and a get finds nothing if and
      only if all that was stored has been got. */
  lemma RefusedOnlyWhenFull<T>(cap: Capacity, ops: seq<Op<T>>, i: nat)
    requires i < |ops|
    ensures var r := Replies([], cap, ops);
            if ops[i].Put? then
              if cap.Bounded? && StoredCount(r, i) - GotCount(r, i) == cap.limit then r[i] == Refused
              else r[i] == Stored
            else
              if StoredCount(r, i) == GotCount(r, i) then r[i] == Nothing else r[i].Got?
  {
    ReplyAt([], cap, ops, i);
    ContentsCounted(cap, ops, i);
  }

  /** How an implementation that has answered i calls answers the next one. */
  lemma RepliesStep<T>(done: seq<Reply<T>>, q: seq<T>, cap: Capacity, ops: seq<Op<T>>, i: nat)
    requires i < |ops|
    ensures done + Replies(q, cap, ops[i..]) ==
            (done + [Answer(q, cap, ops[i])]) + Replies(Contents(q, cap, ops[i]), cap, ops[i + 1..])
  {
    assert ops[i..][0] == ops[i] && ops[i..][1..] == ops[i + 1..];
  }

  // ------------------------------------------------------- calls that may fail

  /** The queue after a call that may have failed. */
  function After<T>(q: seq<T>, cap: Capacity, op: Option<Op<T>>): seq<T> {
    match op case None => q case Some(op) => Contents(q, cap, op)
  }

  /** The answer to it, none if it failed. */
  function Outcome<T>(q: seq<T>, cap: Capacity, op: Option<Op<T>>): Option<Reply<T>> {
    match op case None => None case Some(op) => Some(Answer(q, cap, op))
  }

  function Outcomes<T>(q: seq<T>, cap: Capacity, ops: seq<Option<Op<T>>>): (r: seq<Option<Reply<T>>>)
    ensures |r| == |ops|
    decreases |ops|
  {
    if ops == [] then [] else [Outcome(q, cap, ops[0])] + Outcomes(After(q, cap, ops[0]), cap, ops[1..])
  }

  ghost function Somes<T>(s: seq<Option<T>>): seq<T> {
    if s == [] then [] else (if s[0].Some? then [s[0].value] else []) + Somes(s[1..])
  }

  /** Failed calls answer nothing and change nothing: without them the calls
      and their answers are those of the queue that never fails. */
  lemma {:induction false} FailuresLeaveNoTrace<T>(q: seq<T>, cap: Capacity, ops: seq<Option<Op<T>>>)
    ensures forall i :: 0 <= i < |ops| ==> (Outcomes(q, cap, ops)[i] == None <==> ops[i] == None)
    ensures Somes(Outcomes(q, cap, ops)) == Replies(q, cap, Somes(ops))
    decreases |ops|
  {
    if ops != [] {
      var r, r' := Outcomes(q, cap, ops), Outcomes(After(q, cap, ops[0]), cap, ops[1..]);
      assert r[1..] == r';
      FailuresLeaveNoTrace(After(q, cap, ops[0]), cap, ops[1..]);
      forall i | 0 <= i < |ops| ensures r[i] == None <==> ops[i] == None {
        assert i > 0 ==> r[i] == r'[i - 1] && ops[i] == ops[1..][i - 1];
      }
      if ops[0].Some? {
        assert Somes(ops)[0] == ops[0].value && Somes(ops)[1..] == Somes(ops[1..]);
        assert Somes(r) == [r[0].value] + Somes(r');
      } else {
        assert Somes(ops) == Somes(ops[1..]) && Somes(r) == Somes(r');
      }
    }
  }
}
