/**
 The key-value store of the dispatch example (examples/src/dict_store.rs): requests go to shards by
 the hash of their key and wait there in order, and the shards run whenever they like. The claim is
 that clients cannot tell: every reply is that of one map that serves the requests in the order of
 their dispatch.
*/
module DictStore {
  import opened Wrappers
  import opened Bits

  type Key = seq<byte>

  /** The 64 bits of a value; the store only copies values. */
  type Bits64 = n: nat | n < 0x1_0000_0000_0000_0000

  type Dict = map<Key, Bits64>

  datatype Request = Get(key: Key) | Set(key: Key, value: Bits64) | Delete(key: Key) | ListShard(shard: nat)

  datatype Reply =
    | Found(value: Bits64)
    | NotFound(message: seq<byte>)
    | Stored(oldValue: Option<Bits64>)
    | Listed(count: nat, entries: Dict)

  const U32: nat := 0x1_0000_0000

  /** "key: " and the key. */
  function Missing(key: Key): seq<byte> {
    [0x6b, 0x65, 0x79, 0x3a, 0x20] + key
  }

  function Lookup(d: Dict, key: Key): Option<Bits64> {
    if key in d then Some(d[key]) else None
  }

  // ---------------------------------------------------------------- one map

  function Removed(d: Dict, key: Key): Dict {
    map k | k in d && k != key :: d[k]
  }

  /** What a request makes of a map. */
  function Update(d: Dict, req: Request): Dict {
    match req
    case Set(key, value) => d[key := value]
    case Delete(key) => Removed(d, key)
    case _ => d
  }

  /** The reply to a request; the entries listed are those of `own`. */
  function ReplyTo(d: Dict, own: Dict, req: Request): Reply {
    match req
    case Get(key) => (match Lookup(d, key) case Some(v) => Found(v) case None => NotFound(Missing(key)))
    case Set(key, value) => Stored(Lookup(d, key))
    case Delete(key) => (match Lookup(d, key) case Some(v) => Found(v) case None => NotFound(Missing(key)))
    case ListShard(_) => Listed(|own| % U32, own)
  }

  // ---------------------------------------------------------------- a shard

  class MyDictShard {
    var dict: Dict

    constructor ()
      ensures dict == map[]
    {
      dict := map[];
    }

    method Put(key: Key, value: Bits64) returns (oldValue: Option<Bits64>)
      modifies this
      ensures dict == old(dict)[key := value] && oldValue == Lookup(old(dict), key)
    {
      oldValue := if key in dict then Some(dict[key]) else None;
      dict := dict[key := value];
    }

    method Take(key: Key) returns (value: Option<Bits64>)
      modifies this
      ensures key !in dict && value == Lookup(old(dict), key)
      ensures forall k :: k != key ==> Lookup(dict, k) == Lookup(old(dict), k)
    {
      value := Lookup(dict, key);
      dict := dict - {key};
    }

    /** One request (set, get, delete, list_shard). */
    method Handle(req: Request) returns (reply: Reply)
      modifies this
      ensures dict == Update(old(dict), req)
      ensures reply == ReplyTo(old(dict), old(dict), req)
      ensures forall k :: Lookup(dict, k) ==
                if req.Set? && k == req.key then Some(req.value)
                else if req.Delete? && k == req.key then None
                else Lookup(old(dict), k)
      ensures req.Set? ==> reply == Stored(Lookup(old(dict), req.key))
      ensures (req.Get? || req.Delete?) && req.key in old(dict) ==> reply == Found(old(dict)[req.key])
      ensures (req.Get? || req.Delete?) && req.key !in old(dict) ==> reply.NotFound?
      ensures req.ListShard? ==> reply == Listed(|old(dict)| % U32, old(dict))
    {
      match req
      case Set(key, value) =>
        var oldValue := Put(key, value);
        reply := Stored(oldValue);
      case Get(key) =>
        reply := if key in dict then Found(dict[key]) else NotFound(Missing(key));
      case Delete(key) =>
        var value := Take(key);
        forall k ensures k in dict <==> k in Removed(old(dict), key) {
          assert Lookup(dict, k) == Lookup(Removed(old(dict), key), k);
        }
        forall k | k in dict ensures dict[k] == Removed(old(dict), key)[k] {
          assert Lookup(dict, k) == Lookup(Removed(old(dict), key), k);
        }
        assert dict == Removed(old(dict), key);
        reply := if value.Some? then Found(value.value) else NotFound(Missing(key));
      case ListShard(_) =>
        reply := Listed(|dict| % U32, dict);
    }
  }

  /** A request with its number in the order of dispatch. */
  type Job = (nat, Request)

  function Run(jobs: seq<Job>): Dict {
    if jobs == [] then map[] else Update(Run(jobs[..|jobs| - 1]), jobs[|jobs| - 1].1)
  }

  function Replies(jobs: seq<Job>): (rs: seq<(nat, Reply)>)
    ensures |rs| == |jobs|
  {
    if jobs == [] then []
    else
      var d, (t, req) := Run(jobs[..|jobs| - 1]), jobs[|jobs| - 1];
      Replies(jobs[..|jobs| - 1]) + [(t, ReplyTo(d, d, req))]
  }

  /** shard_routine: requests are served until the queue is closed. */
  method ShardRoutine(queue: seq<Job>) returns (replies: seq<(nat, Reply)>, shard: MyDictShard)
    ensures fresh(shard) && shard.dict == Run(queue) && replies == Replies(queue)
  {
    shard := new MyDictShard();
    replies := [];
    for i := 0 to |queue|
      invariant fresh(shard) && shard.dict == Run(queue[..i]) && replies == Replies(queue[..i])
    {
      var reply := shard.Handle(queue[i].1);
      replies := replies + [(queue[i].0, reply)];
      assert queue[..i + 1][..i] == queue[..i];
    }
    assert queue[..|queue|] == queue;
  }

  // ---------------------------------------------------------------- dispatch

  /** The number of shards, and the hash of keys (a u64, unspecified). */
  datatype Layout = Layout(shards: nat, hash: Key -> nat)

  predicate ValidLayout(lay: Layout) {
    lay.shards > 0
  }

  /** pick_req_tx */
  function Pick(lay: Layout, key: Key): (i: nat)
    requires ValidLayout(lay)
    ensures i < lay.shards
  {
    lay.hash(key) % lay.shards
  }

  /** dispatch_to */
  function Target(lay: Layout, req: Request): (i: nat)
    requires ValidLayout(lay)
    ensures i < lay.shards
  {
    match req
    case ListShard(shard) => shard % lay.shards
    case _ => Pick(lay, req.key)
  }

  // ---------------------------------------------------------------- the reference: one map

  /** The entries whose keys belong to a shard. */
  function Restrict(lay: Layout, d: Dict, i: nat): Dict
    requires ValidLayout(lay)
  {
    map k | k in d && Pick(lay, k) == i :: d[k]
  }

  function OneMap(reqs: seq<Request>): Dict {
    if reqs == [] then map[] else Update(OneMap(reqs[..|reqs| - 1]), reqs[|reqs| - 1])
  }

  /** The reply of the one map to request t; a listing shows the keys of the shard asked for. */
  function OneReply(lay: Layout, reqs: seq<Request>, t: nat): Reply
    requires ValidLayout(lay) && t < |reqs|
  {
    var d := OneMap(reqs[..t]);
    ReplyTo(d, Restrict(lay, d, Target(lay, reqs[t])), reqs[t])
  }

  // ---------------------------------------------------------------- a shard is its part of the map

  /** The requests that go to a shard. */
  function Project(lay: Layout, reqs: seq<Request>, i: nat): (js: seq<Job>)
    requires ValidLayout(lay)
  {
    if reqs == [] then []
    else
      var n := |reqs| - 1;
      Project(lay, reqs[..n], i) + (if Target(lay, reqs[n]) == i then [(n, reqs[n])] else [])
  }

  lemma UpdateRestricted(lay: Layout, d: Dict, req: Request, i: nat)
    requires ValidLayout(lay)
    ensures Restrict(lay, Update(d, req), i) ==
            if Target(lay, req) == i then Update(Restrict(lay, d, i), req) else Restrict(lay, d, i)
  {}

  lemma {:induction false} ShardIsRestriction(lay: Layout, reqs: seq<Request>, i: nat)
    requires ValidLayout(lay)
    ensures Run(Project(lay, reqs, i)) == Restrict(lay, OneMap(reqs), i)
    decreases |reqs|
  {
    if reqs != [] {
      var n := |reqs| - 1;
      ShardIsRestriction(lay, reqs[..n], i);
      UpdateRestricted(lay, OneMap(reqs[..n]), reqs[n], i);
      var before := Project(lay, reqs[..n], i);
      assert (before + [(n, reqs[n])])[..|before|] == before;
      assert before + [] == before;
    }
  }

  /** A job of a shard, and the jobs before it, in the order of dispatch. */
  lemma {:induction false} ProjectAt(lay: Layout, reqs: seq<Request>, i: nat, j: nat)
    requires ValidLayout(lay) && j < |Project(lay, reqs, i)|
    ensures var (t, req) := Project(lay, reqs, i)[j];
            && t < |reqs| && req == reqs[t] && Target(lay, req) == i
            && Project(lay, reqs[..t], i) == Project(lay, reqs, i)[..j]
    decreases |reqs|
  {
    var n := |reqs| - 1;
    var before := Project(lay, reqs[..n], i);
    if j < |before| {
      ProjectAt(lay, reqs[..n], i, j);
      var t := before[j].0;
      assert reqs[..n][..t] == reqs[..t];
      assert Project(lay, reqs, i)[..j] == before[..j];
    } else {
      assert Project(lay, reqs, i)[..j] == before;
    }
  }

  /** Every request is among the jobs of its shard. */
  lemma {:induction false} ProjectHas(lay: Layout, reqs: seq<Request>, t: nat) returns (j: nat)
    requires ValidLayout(lay) && t < |reqs|
    ensures j < |Project(lay, reqs, Target(lay, reqs[t]))|
    ensures Project(lay, reqs, Target(lay, reqs[t]))[j].0 == t
    decreases |reqs|
  {
    var n := |reqs| - 1;
    if t == n {
      j := |Project(lay, reqs[..n], Target(lay, reqs[t]))|;
    } else {
      j := ProjectHas(lay, reqs[..n], t);
    }
  }

  /** A shard that has served the jobs before one replies to it as the one map would. */
  lemma ReplyIsOne(lay: Layout, reqs: seq<Request>, i: nat, j: nat)
    requires ValidLayout(lay) && j < |Project(lay, reqs, i)|
    ensures var (t, req) := Project(lay, reqs, i)[j];
            var d := Run(Project(lay, reqs, i)[..j]);
            t < |reqs| && ReplyTo(d, d, req) == OneReply(lay, reqs, t)
  {
    ProjectAt(lay, reqs, i, j);
    var t := Project(lay, reqs, i)[j].0;
    ShardIsRestriction(lay, reqs[..t], i);
  }

  // ---------------------------------------------------------------- interleavings

  /** The shards' dictionaries and queues, and the replies sent, by request number. */
  datatype Store = Store(dicts: seq<Dict>, queues: seq<seq<Job>>, sent: nat, replies: map<nat, Reply>)

  datatype Event = Dispatch(req: Request) | Serve(shard: nat)

  function Start(lay: Layout): Store {
    Store(seq(lay.shards, _ => map[]), seq(lay.shards, _ => []), 0, map[])
  }

  /** A request is queued, or some shard serves the head of its queue. */
  function Step(lay: Layout, s: Store, e: Event): Store
    requires ValidLayout(lay) && |s.queues| == lay.shards && |s.dicts| == lay.shards
  {
    match e
    case Dispatch(req) =>
      var i := Target(lay, req);
      s.(queues := s.queues[i := s.queues[i] + [(s.sent, req)]], sent := s.sent + 1)
    case Serve(i) =>
      if i >= lay.shards || s.queues[i] == [] then s
      else
        var (t, req) := s.queues[i][0];
        var d := s.dicts[i];
        s.(dicts := s.dicts[i := Update(d, req)], queues := s.queues[i := s.queues[i][1..]],
           replies := s.replies[t := ReplyTo(d, d, req)])
  }

  function StepAll(lay: Layout, es: seq<Event>): (s: Store)
    requires ValidLayout(lay)
    ensures |s.queues| == lay.shards && |s.dicts| == lay.shards
  {
    if es == [] then Start(lay) else Step(lay, StepAll(lay, es[..|es| - 1]), es[|es| - 1])
  }

  /** The requests in the order of dispatch. */
  function Requests(es: seq<Event>): seq<Request> {
    if es == [] then []
    else
      Requests(es[..|es| - 1]) + (match es[|es| - 1] case Dispatch(req) => [req] case Serve(_) => [])
  }

  /** Shard i has served the first of its jobs, in order, and the others wait. */
  ghost predicate ShardAgrees(lay: Layout, s: Store, reqs: seq<Request>, i: nat)
    requires ValidLayout(lay) && |s.queues| == lay.shards && |s.dicts| == lay.shards && i < lay.shards
  {
    var js := Project(lay, reqs, i);
    var served := |js| - |s.queues[i]|;
    && 0 <= served
    && s.queues[i] == js[served..]
    && s.dicts[i] == Run(js[..served])
    && (forall j :: 0 <= j < served ==> js[j].0 in s.replies)
    && (forall j :: served <= j < |js| ==> js[j].0 !in s.replies)
  }

  ghost predicate Agrees(lay: Layout, s: Store, reqs: seq<Request>)
    requires ValidLayout(lay) && |s.queues| == lay.shards && |s.dicts| == lay.shards
  {
    && s.sent == |reqs|
    && (forall i :: 0 <= i < lay.shards ==> ShardAgrees(lay, s, reqs, i))
    && (forall t :: t in s.replies ==> t < |reqs| && s.replies[t] == OneReply(lay, reqs, t))
  }

  /** A number stands for one job of one shard. */
  lemma NumbersDiffer(lay: Layout, reqs: seq<Request>, i: nat, j: nat, i': nat, j': nat)
    requires ValidLayout(lay)
    requires j < |Project(lay, reqs, i)| && j' < |Project(lay, reqs, i')|
    requires Project(lay, reqs, i)[j].0 == Project(lay, reqs, i')[j'].0
    ensures i == i' && j == j'
  {
    ProjectAt(lay, reqs, i, j);
    ProjectAt(lay, reqs, i', j');
  }

  lemma DispatchShard(lay: Layout, s: Store, reqs: seq<Request>, req: Request, i: nat)
    requires ValidLayout(lay) && |s.queues| == lay.shards && |s.dicts| == lay.shards
    requires s.sent == |reqs| && i < lay.shards && ShardAgrees(lay, s, reqs, i)
    requires forall t :: t in s.replies ==> t < |reqs|
    ensures ShardAgrees(lay, Step(lay, s, Dispatch(req)), reqs + [req], i)
  {
    assert (reqs + [req])[..|reqs|] == reqs;
    var js := Project(lay, reqs, i);
    var served := |js| - |s.queues[i]|;
    if Target(lay, req) == i {
      var js' := js + [(|reqs|, req)];
      assert js'[served..] == js[served..] + [(|reqs|, req)];
      assert js'[..served] == js[..served];
    } else {
      assert js + [] == js;
    }
  }

  lemma DispatchAgrees(lay: Layout, s: Store, reqs: seq<Request>, req: Request)
    requires ValidLayout(lay) && |s.queues| == lay.shards && |s.dicts| == lay.shards
    requires Agrees(lay, s, reqs)
    ensures Agrees(lay, Step(lay, s, Dispatch(req)), reqs + [req])
  {
    var all, s' := reqs + [req], Step(lay, s, Dispatch(req));
    forall i | 0 <= i < lay.shards ensures ShardAgrees(lay, s', all, i) {
      DispatchShard(lay, s, reqs, req, i);
    }
    forall t | t in s'.replies ensures s'.replies[t] == OneReply(lay, all, t) {
      assert all[..t] == reqs[..t];
    }
  }

  /** The shard that serves. */
  lemma ServeOwn(lay: Layout, s: Store, reqs: seq<Request>, i: nat)
    requires ValidLayout(lay) && |s.queues| == lay.shards && |s.dicts| == lay.shards
    requires i < lay.shards && ShardAgrees(lay, s, reqs, i) && s.queues[i] != []
    ensures ShardAgrees(lay, Step(lay, s, Serve(i)), reqs, i)
    ensures var js := Project(lay, reqs, i);
            var served := |js| - |s.queues[i]|;
            s.queues[i][0] == js[served] && s.dicts[i] == Run(js[..served]) && js[served].0 !in s.replies
  {
    var js := Project(lay, reqs, i);
    var served := |js| - |s.queues[i]|;
    assert js[..served + 1][..served] == js[..served];
    assert js[served..][1..] == js[served + 1..];
    forall j | served < j < |js| ensures js[j].0 != js[served].0 {
      if js[j].0 == js[served].0 {
        NumbersDiffer(lay, reqs, i, served, i, j);
      }
    }
  }

  /** Any other shard. */
  lemma ServeOther(lay: Layout, s: Store, reqs: seq<Request>, i: nat, served: nat, k: nat)
    requires ValidLayout(lay) && |s.queues| == lay.shards && |s.dicts| == lay.shards
    requires i < lay.shards && k < lay.shards && i != k && ShardAgrees(lay, s, reqs, k)
    requires s.queues[i] != [] && served < |Project(lay, reqs, i)| && s.queues[i][0] == Project(lay, reqs, i)[served]
    ensures ShardAgrees(lay, Step(lay, s, Serve(i)), reqs, k)
  {
    var ks := Project(lay, reqs, k);
    forall j | 0 <= j < |ks| ensures ks[j].0 != s.queues[i][0].0 {
      if ks[j].0 == s.queues[i][0].0 {
        NumbersDiffer(lay, reqs, i, served, k, j);
      }
    }
  }

  /** Its reply is that of the one map. */
  lemma ServeReply(lay: Layout, s: Store, reqs: seq<Request>, i: nat) returns (t: nat, served: nat)
    requires ValidLayout(lay) && |s.queues| == lay.shards && |s.dicts| == lay.shards
    requires i < lay.shards && ShardAgrees(lay, s, reqs, i) && s.queues[i] != []
    ensures served < |Project(lay, reqs, i)| && s.queues[i][0] == Project(lay, reqs, i)[served]
    ensures t == s.queues[i][0].0 && t < |reqs| && t !in s.replies
    ensures Step(lay, s, Serve(i)).replies == s.replies[t := OneReply(lay, reqs, t)]
  {
    served := |Project(lay, reqs, i)| - |s.queues[i]|;
    ServeOwn(lay, s, reqs, i);
    ReplyIsOne(lay, reqs, i, served);
    t := s.queues[i][0].0;
  }

  lemma ServeAgrees(lay: Layout, s: Store, reqs: seq<Request>, i: nat)
    requires ValidLayout(lay) && |s.queues| == lay.shards && |s.dicts| == lay.shards
    requires Agrees(lay, s, reqs) && i < lay.shards && s.queues[i] != []
    ensures Agrees(lay, Step(lay, s, Serve(i)), reqs)
    ensures s.queues[i][0].0 !in s.replies
  {
    var s' := Step(lay, s, Serve(i));
    var t, served := ServeReply(lay, s, reqs, i);
    forall k | 0 <= k < lay.shards ensures ShardAgrees(lay, s', reqs, k) {
      if k == i {
        ServeOwn(lay, s, reqs, i);
      } else {
        ServeOther(lay, s, reqs, i, served, k);
      }
    }
  }

  lemma {:induction false} StoreAgrees(lay: Layout, es: seq<Event>)
    requires ValidLayout(lay)
    ensures Agrees(lay, StepAll(lay, es), Requests(es))
    decreases |es|
  {
    if es == [] {
      return;
    }
    var before, e := es[..|es| - 1], es[|es| - 1];
    var s, reqs := StepAll(lay, before), Requests(before);
    StoreAgrees(lay, before);
    match e
    case Dispatch(req) =>
      DispatchAgrees(lay, s, reqs, req);
    case Serve(i) =>
      assert reqs + [] == reqs;
      if i < lay.shards && s.queues[i] != [] {
        ServeAgrees(lay, s, reqs, i);
      }
  }

  /** A request has the reply of the one map, or waits at its shard. */
  lemma RepliedOrWaits(lay: Layout, es: seq<Event>, t: nat)
    requires ValidLayout(lay) && t < |Requests(es)|
    ensures var s, reqs := StepAll(lay, es), Requests(es);
            if t in s.replies then s.replies[t] == OneReply(lay, reqs, t)
            else (t, reqs[t]) in s.queues[Target(lay, reqs[t])]
  {
    StoreAgrees(lay, es);
    var s, reqs := StepAll(lay, es), Requests(es);
    var i := Target(lay, reqs[t]);
    var j := ProjectHas(lay, reqs, t);
    ProjectAt(lay, reqs, i, j);
    assert ShardAgrees(lay, s, reqs, i);
    var js := Project(lay, reqs, i);
    var served := |js| - |s.queues[i]|;
    if j >= served {
      assert s.queues[i][j - served] == js[j];
    }
  }

  /**
   However the shards interleave: every reply is that of one map that served the requests in the
   order of dispatch, no reply is to anything else, and a request without its reply still waits.
  */
  lemma ShardsAreOneMap(lay: Layout, es: seq<Event>)
    requires ValidLayout(lay)
    ensures var s, reqs := StepAll(lay, es), Requests(es);
            && (forall t :: t in s.replies ==> t < |reqs| && s.replies[t] == OneReply(lay, reqs, t))
            && forall t :: 0 <= t < |reqs| ==> t in s.replies || (t, reqs[t]) in s.queues[Target(lay, reqs[t])]
  {
    StoreAgrees(lay, es);
    forall t | 0 <= t < |Requests(es)|
      ensures t in StepAll(lay, es).replies
           || (t, Requests(es)[t]) in StepAll(lay, es).queues[Target(lay, Requests(es)[t])]
    {
      RepliedOrWaits(lay, es, t);
    }
  }

  /** A request is answered once: serving it gives a reply to a number that had none. */
  lemma RepliesOnce(lay: Layout, es: seq<Event>, i: nat)
    requires ValidLayout(lay) && i < lay.shards && StepAll(lay, es).queues[i] != []
    ensures StepAll(lay, es).queues[i][0].0 !in StepAll(lay, es).replies
  {
    StoreAgrees(lay, es);
    ServeAgrees(lay, StepAll(lay, es), Requests(es), i);
  }

  lemma QuietShard(lay: Layout, es: seq<Event>, i: nat)
    requires ValidLayout(lay) && i < lay.shards && StepAll(lay, es).queues[i] == []
    ensures StepAll(lay, es).dicts[i] == Restrict(lay, OneMap(Requests(es)), i)
  {
    StoreAgrees(lay, es);
    ShardIsDone(lay, StepAll(lay, es), Requests(es), i);
  }

  lemma ShardIsDone(lay: Layout, s: Store, reqs: seq<Request>, i: nat)
    requires ValidLayout(lay) && |s.queues| == lay.shards && |s.dicts| == lay.shards
    requires i < lay.shards && ShardAgrees(lay, s, reqs, i) && s.queues[i] == []
    ensures s.dicts[i] == Restrict(lay, OneMap(reqs), i)
  {
    var js := Project(lay, reqs, i);
    assert js[..|js|] == js;
    ShardIsRestriction(lay, reqs, i);
  }

  /**
   When all queues are empty, every request has its reply, and the dictionaries are disjoint and
   together they are the one map.
  */
  lemma QuietShardsAreTheMap(lay: Layout, es: seq<Event>)
    requires ValidLayout(lay)
    requires forall i :: 0 <= i < lay.shards ==> StepAll(lay, es).queues[i] == []
    ensures var s, d := StepAll(lay, es), OneMap(Requests(es));
            && (forall i, k :: 0 <= i < k < lay.shards ==> s.dicts[i].Keys !! s.dicts[k].Keys)
            && (forall i, key :: 0 <= i < lay.shards && key in s.dicts[i] ==> key in d && d[key] == s.dicts[i][key])
            && (forall key :: key in d ==> key in s.dicts[Pick(lay, key)])
    ensures forall t :: 0 <= t < |Requests(es)| ==> t in StepAll(lay, es).replies
  {
    var s, reqs := StepAll(lay, es), Requests(es);
    forall i | 0 <= i < lay.shards ensures s.dicts[i] == Restrict(lay, OneMap(reqs), i) {
      QuietShard(lay, es, i);
    }
    forall t | 0 <= t < |reqs| ensures t in s.replies {
      RepliedOrWaits(lay, es, t);
    }
  }
}
