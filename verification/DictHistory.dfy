/**
 What a client of the store can rely on (examples/src/dict_store.rs), told by the requests alone: a key
 has the value of the last request that changed it.
*/
module DictHistory {
  import opened Wrappers
  import opened Bits
  import opened DictStore

  predicate Changes(req: Request, key: Key) {
    (req.Set? || req.Delete?) && req.key == key
  }

  /** Of the first t requests, the last that changes the key sets it to v. */
  ghost predicate Holds(reqs: seq<Request>, t: nat, key: Key, v: Bits64)
    requires t <= |reqs|
  {
    exists u: nat :: u < t && reqs[u] == Set(key, v) && NoneChanges(reqs, u + 1, t, key)
  }

  ghost predicate NoneChanges(reqs: seq<Request>, from: nat, to: nat, key: Key)
    requires to <= |reqs|
  {
    forall w :: from <= w < to ==> !Changes(reqs[w], key)
  }

  ghost predicate HoldsNone(reqs: seq<Request>, t: nat, key: Key)
    requires t <= |reqs|
  {
    forall v: Bits64 :: !Holds(reqs, t, key, v)
  }

  /** "key: " and the key: what a missing key is answered with. */
  function KeyText(key: Key): seq<byte> {
    Ascii("key: ") + key
  }

  /** The entries are those that the keys of a shard hold. */
  ghost predicate Lists(lay: Layout, reqs: seq<Request>, t: nat, shard: nat, entries: Dict)
    requires ValidLayout(lay) && t <= |reqs|
  {
    forall key, v: Bits64 ::
      key in entries && entries[key] == v <==>
      Holds(reqs, t, key, v) && lay.hash(key) % lay.shards == shard % lay.shards
  }

  /** A reply to request t is what the requests before it say. */
  ghost predicate IsRight(lay: Layout, reqs: seq<Request>, t: nat, reply: Reply)
    requires ValidLayout(lay) && t < |reqs|
  {
    match reqs[t]
    case Set(key, _) =>
      && (forall v: Bits64 :: reply == Stored(Some(v)) <==> Holds(reqs, t, key, v))
      && (reply == Stored(None) <==> HoldsNone(reqs, t, key))
    case ListShard(shard) =>
      reply.Listed? && reply.count == |reply.entries| % U32 && Lists(lay, reqs, t, shard, reply.entries)
    case _ =>
      && (forall v: Bits64 :: reply == Found(v) <==> Holds(reqs, t, reqs[t].key, v))
      && (reply == NotFound(KeyText(reqs[t].key)) <==> HoldsNone(reqs, t, reqs[t].key))
  }

  // ---------------------------------------------------------------- the one map

  lemma HoldsSnoc(reqs: seq<Request>, req: Request, key: Key, v: Bits64)
    ensures var all := reqs + [req];
            Holds(all, |all|, key, v) <==>
            req == Set(key, v) || (!Changes(req, key) && Holds(reqs, |reqs|, key, v))
  {
    var all := reqs + [req];
    if Holds(all, |all|, key, v) {
      var u: nat :| u < |all| && all[u] == Set(key, v) && NoneChanges(all, u + 1, |all|, key);
      if u < |reqs| {
        assert !Changes(all[|reqs|], key);
        assert forall w :: 0 <= w < |reqs| ==> all[w] == reqs[w];
        assert reqs[u] == Set(key, v) && NoneChanges(reqs, u + 1, |reqs|, key);
      }
    }
    if req == Set(key, v) {
      assert all[|reqs|] == Set(key, v) && NoneChanges(all, |reqs| + 1, |all|, key);
    } else if !Changes(req, key) && Holds(reqs, |reqs|, key, v) {
      var u: nat :| u < |reqs| && reqs[u] == Set(key, v) && NoneChanges(reqs, u + 1, |reqs|, key);
      assert all[u] == Set(key, v) && NoneChanges(all, u + 1, |all|, key);
    }
  }

  /** The one map has what the requests say. */
  lemma {:induction false} MapHolds(reqs: seq<Request>, key: Key, v: Bits64)
    ensures key in OneMap(reqs) && OneMap(reqs)[key] == v <==> Holds(reqs, |reqs|, key, v)
    decreases |reqs|
  {
    if reqs != [] {
      var n := |reqs| - 1;
      assert reqs == reqs[..n] + [reqs[n]];
      MapHolds(reqs[..n], key, v);
      HoldsSnoc(reqs[..n], reqs[n], key, v);
    }
  }

  lemma HoldsBefore(reqs: seq<Request>, t: nat, key: Key, v: Bits64)
    requires t <= |reqs|
    ensures Holds(reqs, t, key, v) <==> Holds(reqs[..t], t, key, v)
  {
    if Holds(reqs, t, key, v) {
      var u: nat :| u < t && reqs[u] == Set(key, v) && NoneChanges(reqs, u + 1, t, key);
      assert reqs[..t][u] == Set(key, v) && NoneChanges(reqs[..t], u + 1, t, key);
    }
    if Holds(reqs[..t], t, key, v) {
      var u: nat :| u < t && reqs[..t][u] == Set(key, v) && NoneChanges(reqs[..t], u + 1, t, key);
      assert forall w :: u + 1 <= w < t ==> reqs[w] == reqs[..t][w];
      assert reqs[u] == Set(key, v) && NoneChanges(reqs, u + 1, t, key);
    }
  }

  lemma MapBefore(reqs: seq<Request>, t: nat, key: Key)
    requires t <= |reqs|
    ensures forall v: Bits64 :: Lookup(OneMap(reqs[..t]), key) == Some(v) <==> Holds(reqs, t, key, v)
    ensures Lookup(OneMap(reqs[..t]), key) == None <==> HoldsNone(reqs, t, key)
  {
    var d := OneMap(reqs[..t]);
    forall v: Bits64 ensures Lookup(d, key) == Some(v) <==> Holds(reqs, t, key, v) {
      MapHolds(reqs[..t], key, v);
      HoldsBefore(reqs, t, key, v);
    }
    if key in d {
      assert Lookup(d, key) == Some(d[key]);
      assert Holds(reqs, t, key, d[key]);
    }
  }

  /** The replies of the one map are what the requests say. */
  lemma OneReplyIsRight(lay: Layout, reqs: seq<Request>, t: nat)
    requires ValidLayout(lay) && t < |reqs|
    ensures IsRight(lay, reqs, t, OneReply(lay, reqs, t))
  {
    var d := OneMap(reqs[..t]);
    match reqs[t]
    case ListShard(shard) =>
      var entries := Restrict(lay, d, Target(lay, reqs[t]));
      forall key, v: Bits64
        ensures key in entries && entries[key] == v <==>
                Holds(reqs, t, key, v) && lay.hash(key) % lay.shards == shard % lay.shards
      {
        MapBefore(reqs, t, key);
        assert Lookup(d, key) == Some(v) <==> Holds(reqs, t, key, v);
      }
    case Get(key) => MapBefore(reqs, t, key);
    case Set(key, _) => MapBefore(reqs, t, key);
    case Delete(key) => MapBefore(reqs, t, key);
  }

  lemma ReplyIsRight(lay: Layout, es: seq<Event>, t: nat)
    requires ValidLayout(lay) && t in StepAll(lay, es).replies
    ensures t < |Requests(es)| && IsRight(lay, Requests(es), t, StepAll(lay, es).replies[t])
  {
    StoreAgrees(lay, es);
    RepliedOrWaits(lay, es, t);
    OneReplyIsRight(lay, Requests(es), t);
  }

  /**
   However the shards interleave: a reply to a get or delete is the value of the last request before it that
   set or deleted its key, if that set it, and else that there is none; a set is told that value; and a
   listing has exactly these values of the keys of its shard. A request with no reply waits where its
   key's hash, or the shard it asks for, sends it.
  */
  lemma RepliesAreRight(lay: Layout, es: seq<Event>)
    requires ValidLayout(lay)
    ensures var s, reqs := StepAll(lay, es), Requests(es);
            && (forall t :: t in s.replies ==> t < |reqs| && IsRight(lay, reqs, t, s.replies[t]))
            && forall t :: 0 <= t < |reqs| && t !in s.replies ==>
                 var n := if reqs[t].ListShard? then reqs[t].shard else lay.hash(reqs[t].key);
                 (t, reqs[t]) in s.queues[n % lay.shards]
  {
    forall t | t in StepAll(lay, es).replies
      ensures t < |Requests(es)| && IsRight(lay, Requests(es), t, StepAll(lay, es).replies[t])
    {
      ReplyIsRight(lay, es, t);
    }
    forall t | 0 <= t < |Requests(es)| {
      RepliedOrWaits(lay, es, t);
    }
  }
}
