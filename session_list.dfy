/** The per-user list of refresh-token records (`user.refreshToken`), the
    `findIndex` scan the handlers run over it, and the two ways the handlers
    change it: overwriting one position and pulling a record by its `_id`. */
module SessionList {

  type Token = string

  /** A Mongo ObjectId, drawn from one store-wide generator. */
  type ObjectId = nat

  /** One embedded `{_id, refreshToken}` subdocument. */
  datatype Session = Session(id: ObjectId, refreshToken: Token)

  /** The first position whose record holds `t`, as `findIndex` with a
      strict comparison of the token finds it, or -1 when none does. */
  function FindIndex(ss: seq<Session>, t: Token): (k: int)
    ensures -1 <= k < |ss|
    ensures k == -1 <==> forall i | 0 <= i < |ss| :: ss[i].refreshToken != t
    ensures 0 <= k ==> ss[k].refreshToken == t
    ensures 0 <= k ==> forall i | 0 <= i < k :: ss[i].refreshToken != t
  {
    if ss == [] then -1
    else if ss[0].refreshToken == t then 0
    else
      var k := FindIndex(ss[1..], t);
      if k == -1 then -1 else k + 1
  }

  /** The scan itself, front to back, as `Array.prototype.findIndex` runs it. */
  method ScanForToken(ss: seq<Session>, t: Token) returns (k: int)
    ensures k == FindIndex(ss, t)
  {
    var i := 0;
    while i < |ss|
      invariant 0 <= i <= |ss|
      invariant forall j | 0 <= j < i :: ss[j].refreshToken != t
    {
      if ss[i].refreshToken == t {
        return i;
      }
      i := i + 1;
    }
    return -1;
  }

  /** How many records hold token `t`. */
  function TokenCount(ss: seq<Session>, t: Token): nat
  {
    if ss == [] then 0
    else (if ss[0].refreshToken == t then 1 else 0) + TokenCount(ss[1..], t)
  }

  /** No two records of one list share an `_id`. */
  ghost predicate DistinctIds(ss: seq<Session>)
  {
    forall i, j | 0 <= i < j < |ss| :: ss[i].id != ss[j].id
  }

  /** Removing the subdocument with a given `_id`: Mongoose pulls every
      subdocument carrying that `_id` out of the array and keeps the others
      in order. */
  function WithoutId(ss: seq<Session>, id: ObjectId): (r: seq<Session>)
    ensures |r| <= |ss|
    ensures forall i | 0 <= i < |r| :: r[i].id != id
    ensures forall s | s in r :: s in ss
  {
    if ss == [] then []
    else if ss[0].id == id then WithoutId(ss[1..], id)
    else [ss[0]] + WithoutId(ss[1..], id)
  }

  /** Pulling an `_id` keeps every record that carries another `_id`. */
  lemma {:induction false} WithoutIdKeepsOthers(ss: seq<Session>, id: ObjectId)
    ensures forall i | 0 <= i < |ss| && ss[i].id != id :: ss[i] in WithoutId(ss, id)
  {
    if ss != [] {
      WithoutIdKeepsOthers(ss[1..], id);
      assert forall i | 1 <= i < |ss| :: ss[i] == ss[1..][i - 1];
    }
  }

  /** The list with position `k` taken out. */
  function RemoveAt(ss: seq<Session>, k: nat): seq<Session>
    requires k < |ss|
  {
    ss[..k] + ss[k + 1..]
  }

  /** A token is found by the scan exactly when some record holds it. */
  lemma {:induction false} FindIndexCount(ss: seq<Session>, t: Token)
    ensures FindIndex(ss, t) == -1 <==> TokenCount(ss, t) == 0
  {
    if ss != [] {
      FindIndexCount(ss[1..], t);
    }
  }

  /** Overwriting position `k` changes the count of `t` only by what left
      and what arrived at `k`. */
  lemma {:induction false} CountAfterUpdate(ss: seq<Session>, k: nat, s: Session, t: Token)
    requires k < |ss|
    ensures TokenCount(ss[k := s], t)
         == TokenCount(ss, t)
          - (if ss[k].refreshToken == t then 1 else 0)
          + (if s.refreshToken == t then 1 else 0)
  {
    if k > 0 {
      CountAfterUpdate(ss[1..], k - 1, s, t);
      assert ss[k := s][1..] == ss[1..][k - 1 := s];
    } else {
      assert ss[k := s][1..] == ss[1..];
    }
  }

  /** Taking out position `k` lowers the count of `t` by what stood there. */
  lemma {:induction false} CountAfterRemove(ss: seq<Session>, k: nat, t: Token)
    requires k < |ss|
    ensures TokenCount(RemoveAt(ss, k), t)
         == TokenCount(ss, t) - (if ss[k].refreshToken == t then 1 else 0)
  {
    if k > 0 {
      CountAfterRemove(ss[1..], k - 1, t);
      assert RemoveAt(ss, k) == [ss[0]] + RemoveAt(ss[1..], k - 1);
    } else {
      assert RemoveAt(ss, k) == ss[1..];
    }
  }

  /** Under distinct `_id`s, pulling the `_id` of the record at `k` takes out
      exactly that record and keeps the rest in order. */
  lemma {:induction false} PullRemovesOne(ss: seq<Session>, k: nat)
    requires DistinctIds(ss)
    requires k < |ss|
    ensures WithoutId(ss, ss[k].id) == RemoveAt(ss, k)
  {
    var id := ss[k].id;
    if k == 0 {
      NoIdNoPull(ss[1..], id);
    } else {
      PullRemovesOne(ss[1..], k - 1);
      assert ss[1..][k - 1] == ss[k];
      assert RemoveAt(ss, k) == [ss[0]] + RemoveAt(ss[1..], k - 1);
    }
  }

  /** Pulling an `_id` that no record carries leaves the list as it is. */
  lemma {:induction false} NoIdNoPull(ss: seq<Session>, id: ObjectId)
    requires forall i | 0 <= i < |ss| :: ss[i].id != id
    ensures WithoutId(ss, id) == ss
  {
    if ss != [] {
      NoIdNoPull(ss[1..], id);
    }
  }

  /** Rotation: once the only record holding `t` is overwritten with a
      different token, `t` is no longer found, and the new token is. */
  lemma RotationRetires(ss: seq<Session>, s: Session, t: Token)
    requires TokenCount(ss, t) == 1
    requires s.refreshToken != t
    ensures 0 <= FindIndex(ss, t)
    ensures FindIndex(ss[FindIndex(ss, t) := s], t) == -1
    ensures 0 <= FindIndex(ss[FindIndex(ss, t) := s], s.refreshToken) <= FindIndex(ss, t)
  {
    FindIndexCount(ss, t);
    var k := FindIndex(ss, t);
    CountAfterUpdate(ss, k, s, t);
    FindIndexCount(ss[k := s], t);
    assert ss[k := s][k].refreshToken == s.refreshToken;
  }

  /** Logout: once the only record holding `t` is taken out, `t` is no
      longer found, so a second logout with `t` finds nothing to remove. */
  lemma RemovalRetires(ss: seq<Session>, t: Token)
    requires TokenCount(ss, t) == 1
    ensures 0 <= FindIndex(ss, t)
    ensures FindIndex(RemoveAt(ss, FindIndex(ss, t)), t) == -1
  {
    FindIndexCount(ss, t);
    var k := FindIndex(ss, t);
    CountAfterRemove(ss, k, t);
    FindIndexCount(RemoveAt(ss, k), t);
  }
}
