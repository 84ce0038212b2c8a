/** How much of its threads' work a step of a queue uses up or brings on. */
module QueueWork {
  import opened SyncQueue
  import opened QueueProtocol
  import opened Sums

  lemma {:induction false} SumWake(pcs: seq<Pc>, from: Pc, to: Pc, f: Pc -> nat)
    requires from != to && f(to) == f(from) + 1
    ensures Sum(Wake(pcs, from, to), f) == Sum(pcs, f) + Count(pcs, from)
  {
    if pcs != [] {
      SumWake(pcs[1..], from, to, f);
      assert Wake(pcs, from, to)[1..] == Wake(pcs[1..], from, to);
    }
  }

  lemma {:induction false} CountAtMostOne(pcs: seq<Pc>, p: Pc, k: nat)
    requires k < |pcs| && forall i :: 0 <= i < |pcs| && i != k ==> pcs[i] != p
    ensures Count(pcs, p) <= 1
  {
    if k == 0 {
      CountNone(pcs[1..], p);
    } else {
      CountAtMostOne(pcs[1..], p, k - 1);
    }
  }

  lemma {:induction false} CountAtMostAll(pcs: seq<Pc>, p: Pc)
    ensures Count(pcs, p) <= |pcs|
  {
    if pcs != [] {
      CountAtMostAll(pcs[1..], p);
    }
  }

  /** A thread's place in the protocol of a queue that nobody waits on for completion. */
  function PlaceCost(threads: nat): Pc -> nat {
    (pc: Pc) => match pc
      case Running => 2
      case OwesOne => 4
      case OwesAll => threads + 3
      case Asleep => 0
      case Woken => 1
      case AwaitingWorkers => 0
      case WokenByWorkers => 1
  }

  function PlaceGain<T>(threads: nat, e: Event<T>): int {
    match e
    case Push(_) => 2
    case PushAll(_) => threads + 1
    case Close => threads + 1
    case Pull(_) => 1
    case PullClosed => 1
    case Spurious => 1
    case Refused => 0
    case _ => -1
  }

  lemma StepPlaces<T>(s: System<T>, t: nat, e: Event<T>, s': System<T>)
    requires Step(s, t, e, s') && !e.AwaitBlocks? && !e.AwaitReturns?
    requires forall i :: 0 <= i < |s.pcs| ==> s.pcs[i] != AwaitingWorkers && s.pcs[i] != WokenByWorkers
    ensures |s'.pcs| == |s.pcs|
    ensures Sum(s'.pcs, PlaceCost(|s.pcs|)) <= Sum(s.pcs, PlaceCost(|s.pcs|)) + PlaceGain(|s.pcs|, e)
  {
    hide Count, Wake, Sum;
    var f := PlaceCost(|s.pcs|);
    if e.NotifyOne? {
      SumUpdate(s.pcs, t, Running, f);
      SumUpdate(s.pcs[t := Running], e.sleeper, Woken, f);
    } else if e.NotifyAll? {
      SumUpdate(s.pcs, t, Running, f);
      SumWake(s.pcs[t := Running], Asleep, Woken, f);
      CountAtMostAll(s.pcs[t := Running], Asleep);
    } else if s'.pcs != s.pcs {
      assert Announced(s, s.pcs[t]) == s.pcs;
      SumUpdate(s.pcs, t, s'.pcs[t], f);
    }
  }
}
