/**
 * The work table: session records, the Open/Closed state of a session, and the
 * rule that a user has at most one open session.
 */
module WorkStore {
  import opened Common

  /** One row of the work table; `endTime == None` (SQL NULL) means the session is still open. */
  datatype Work = Work(id: string, userId: string, description: string, startTime: int, endTime: Option<int>)

  /** Open: the session has no end time yet. */
  predicate IsOpen(w: Work) {
    w.endTime.None?
  }

  /** An open session owned by `userId`. */
  predicate IsOpenOf(w: Work, userId: string) {
    w.userId == userId && w.endTime.None?
  }

  /** The user has some open session in the table. */
  predicate HasOpen(works: seq<Work>, userId: string) {
    exists i :: 0 <= i < |works| && IsOpenOf(works[i], userId)
  }

  /** The invariant the work service relies on: no user owns two open sessions. */
  ghost predicate AtMostOneOpen(works: seq<Work>) {
    forall i, j ::
      (0 <= i < |works| && 0 <= j < |works| && IsOpen(works[i]) && IsOpen(works[j]) &&
       works[i].userId == works[j].userId) ==> i == j
  }

  /** The primary key of the work table. */
  ghost predicate IdsDistinct(works: seq<Work>) {
    forall i, j :: 0 <= i < |works| && 0 <= j < |works| && works[i].id == works[j].id ==> i == j
  }

  /** No row carries this id yet. */
  predicate FreshId(works: seq<Work>, id: string) {
    forall i :: 0 <= i < |works| ==> works[i].id != id
  }

  /** Row index of the first open session of `userId` in table order: what `findOne` returns. */
  function FirstOpen(works: seq<Work>, userId: string): (r: Option<nat>)
    ensures r.None? <==> !HasOpen(works, userId)
    ensures r.Some? ==> r.value < |works| && IsOpenOf(works[r.value], userId)
    ensures r.Some? ==> forall k :: 0 <= k < r.value ==> !IsOpenOf(works[k], userId)
  {
    if works == [] then None
    else if IsOpenOf(works[0], userId) then Some(0)
    else
      match FirstOpen(works[1..], userId)
      case None => None
      case Some(i) => Some(i + 1)
  }

  /** Under the invariant the first open session of a user is the only one. */
  lemma FirstOpenIsOnly(works: seq<Work>, userId: string, k: nat)
    requires AtMostOneOpen(works)
    requires k < |works| && IsOpenOf(works[k], userId)
    ensures FirstOpen(works, userId) == Some(k)
  {
  }

  /** The table after row `i` has been closed at `now`. */
  function Close(works: seq<Work>, i: nat, now: int): (r: seq<Work>)
    requires i < |works|
    ensures |r| == |works|
    ensures r[i] == works[i].(endTime := Some(now)) && !IsOpen(r[i])
    ensures forall k :: 0 <= k < |works| && k != i ==> r[k] == works[k]
  {
    works[i := works[i].(endTime := Some(now))]
  }

  /**
   * Appending an open session keeps the invariant exactly when its owner had no
   * open session before: the guard the controller performs is needed.
   */
  lemma AppendOpenKeepsInvariantIff(works: seq<Work>, w: Work)
    requires IsOpen(w)
    ensures AtMostOneOpen(works + [w]) <==> AtMostOneOpen(works) && !HasOpen(works, w.userId)
  {
    var ext := works + [w];
    var n := |works|;
    assert ext[n] == w;
    assert forall k :: 0 <= k < n ==> ext[k] == works[k];
    if HasOpen(works, w.userId) {
      // the old open session and the new one are two open sessions of one user
      var i :| 0 <= i < n && IsOpenOf(works[i], w.userId);
      assert IsOpen(ext[i]) && IsOpen(ext[n]) && ext[i].userId == ext[n].userId && i != n;
    } else {
      assert forall k :: 0 <= k < n ==> !IsOpenOf(works[k], w.userId);
    }
  }

  /**
   * Closing a user's open session keeps the invariant and, under it, leaves that
   * user with no open session.
   */
  lemma CloseKeepsInvariant(works: seq<Work>, i: nat, now: int)
    requires AtMostOneOpen(works)
    requires i < |works| && IsOpen(works[i])
    ensures AtMostOneOpen(Close(works, i, now))
    ensures !HasOpen(Close(works, i, now), works[i].userId)
  {
    var closed := Close(works, i, now);
    forall k | 0 <= k < |closed|
      ensures !IsOpenOf(closed[k], works[i].userId)
    {
      if k != i {
        assert closed[k] == works[k];
      }
    }
  }

  /** Closing a row changes no id, so the primary key stays unique. */
  lemma CloseKeepsIds(works: seq<Work>, i: nat, now: int)
    requires IdsDistinct(works) && i < |works|
    ensures IdsDistinct(Close(works, i, now))
  {
    var closed := Close(works, i, now);
    forall a, b | 0 <= a < |closed| && 0 <= b < |closed| && closed[a].id == closed[b].id
      ensures a == b
    {
      assert closed[a].id == works[a].id && closed[b].id == works[b].id;
    }
  }

  /** Appending a row with a fresh id keeps the primary key unique. */
  lemma AppendFreshKeepsIds(works: seq<Work>, w: Work)
    requires IdsDistinct(works) && FreshId(works, w.id)
    ensures IdsDistinct(works + [w])
  {
    var ext := works + [w];
    forall a, b | 0 <= a < |ext| && 0 <= b < |ext| && ext[a].id == ext[b].id
      ensures a == b
    {
      if a < |works| { assert ext[a] == works[a]; }
      if b < |works| { assert ext[b] == works[b]; }
    }
  }
}
