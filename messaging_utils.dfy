/**
 * MessagingUtils.tryAliveFirst: a candidate iterator over a list of peers.
 * Its first pass yields, in order, only the peers the failure detector
 * reports alive; once that pass runs off the end it cycles through every
 * peer round-robin, for as long as it is asked.
 *
 * The peers' iterator is its position in the list; asking the iterable for
 * a new iterator restarts it at 0. The failure detector is a predicate given
 * to each call, since its answers may change from one call to the next.
 */
module MessagingUtils {
  import opened Optional

  /** InetAddressAndPort. */
  datatype Endpoint = Endpoint(address: nat, port: nat)

  /** Where the first pass stops when started at `from`: the next alive peer's index, or the end. */
  function FirstAliveFrom(peers: seq<Endpoint>, from: nat, isAlive: Endpoint -> bool): (j: nat)
    requires from <= |peers|
    ensures from <= j <= |peers|
    decreases |peers| - from
  {
    if from == |peers| then from
    else if isAlive(peers[from]) then from
    else FirstAliveFrom(peers, from + 1, isAlive)
  }

  /** The scan's result is the first alive peer from `from` on, and exactly it. */
  lemma {:induction false} FirstAliveFromIsFirst(peers: seq<Endpoint>, from: nat, j: nat, isAlive: Endpoint -> bool)
    requires from <= j <= |peers|
    requires forall k :: from <= k < j ==> !isAlive(peers[k])
    requires j < |peers| ==> isAlive(peers[j])
    ensures FirstAliveFrom(peers, from, isAlive) == j
    decreases j - from
  {
    if from < j {
      FirstAliveFromIsFirst(peers, from + 1, j, isAlive);
    }
  }

  /** Conversely, every peer the scan passes over is down, and the one it stops at is up. */
  lemma {:induction false} FirstAliveFromSkipsOnlyDead(peers: seq<Endpoint>, from: nat, isAlive: Endpoint -> bool)
    requires from <= |peers|
    ensures forall k :: from <= k < FirstAliveFrom(peers, from, isAlive) ==> !isAlive(peers[k])
    ensures FirstAliveFrom(peers, from, isAlive) < |peers| ==> isAlive(peers[FirstAliveFrom(peers, from, isAlive)])
    decreases |peers| - from
  {
    if from < |peers| && !isAlive(peers[from]) {
      FirstAliveFromSkipsOnlyDead(peers, from + 1, isAlive);
    }
  }

  /** Where the round-robin pass resumes: the current position, or 0 after a fresh iterator. */
  function Resume(peers: seq<Endpoint>, pos: nat): (p: nat)
    ensures |peers| > 0 ==> p < |peers|
    ensures pos < |peers| ==> p == pos
  {
    if pos < |peers| then pos else 0
  }

  class AliveFirstIterator {
    const peers: seq<Endpoint>
    /** The position of `iter` in peers. */
    var pos: nat
    var firstRun: bool
    const isEmpty: bool

    ghost predicate Valid()
      reads this
    {
      pos <= |peers| && (isEmpty <==> |peers| == 0)
    }

    constructor(peers: seq<Endpoint>)
      ensures this.peers == peers && pos == 0 && firstRun && Valid()
    {
      this.peers := peers;
      this.pos := 0;
      this.firstRun := true;
      this.isEmpty := |peers| == 0;
    }

    /** hasNext: fixed at creation, true exactly for a non-empty peer list. */
    predicate HasNext()
      requires Valid()
      reads this
      ensures HasNext() <==> |peers| > 0
    {
      !isEmpty
    }

    /**
     * next. During the first run it returns the next alive peer, skipping
     * the others; when that pass reaches the end the first run is over for
     * good, and from then on each call returns the peer at the position,
     * restarting from the first peer at the end. With no peers at all it
     * throws NoSuchElementException, here None.
     */
    method Next(isAlive: Endpoint -> bool) returns (r: Option<Endpoint>)
      requires Valid()
      modifies this
      ensures Valid()
      ensures r.Some? ==> r.value in peers
      ensures r.None? <==> |peers| == 0
      ensures old(firstRun) && FirstAliveFrom(peers, old(pos), isAlive) < |peers| ==>
                firstRun && pos == FirstAliveFrom(peers, old(pos), isAlive) + 1 && r == Some(peers[pos - 1])
      ensures old(firstRun) && FirstAliveFrom(peers, old(pos), isAlive) == |peers| && |peers| > 0 ==>
                !firstRun && pos == 1 && r == Some(peers[0])
      ensures !old(firstRun) && |peers| > 0 ==>
                !firstRun && pos == Resume(peers, old(pos)) + 1 && r == Some(peers[Resume(peers, old(pos))])
      ensures |peers| == 0 ==> !firstRun
    {
      if firstRun {
        while pos < |peers|
          invariant firstRun
          invariant old(pos) <= pos <= |peers|
          invariant forall k :: old(pos) <= k < pos ==> !isAlive(peers[k])
          decreases |peers| - pos
        {
          var candidate := peers[pos];
          pos := pos + 1;
          if isAlive(candidate) {
            FirstAliveFromIsFirst(peers, old(pos), pos - 1, isAlive);
            return Some(candidate);
          }
        }
        FirstAliveFromIsFirst(peers, old(pos), |peers|, isAlive);
        firstRun := false;
      }
      if pos == |peers| {
        pos := 0;
      }
      if pos == |peers| {
        return None;
      }
      r := Some(peers[pos]);
      pos := pos + 1;
    }
  }

  /**
   * The first candidate a fresh iterator offers: the first alive peer, or the
   * first peer when none is alive.
   */
  method FirstCandidate(peers: seq<Endpoint>, isAlive: Endpoint -> bool) returns (r: Option<Endpoint>)
    ensures |peers| == 0 ==> r == None
    ensures (exists k :: 0 <= k < |peers| && isAlive(peers[k])) ==>
              r.Some? && isAlive(r.value)
              && (exists k :: 0 <= k < |peers| && r.value == peers[k] && forall j :: 0 <= j < k ==> !isAlive(peers[j]))
    ensures |peers| > 0 && (forall k :: 0 <= k < |peers| ==> !isAlive(peers[k])) ==> r == Some(peers[0])
  {
    var it := new AliveFirstIterator(peers);
    FirstAliveFromSkipsOnlyDead(peers, 0, isAlive);
    r := it.Next(isAlive);
  }
}
