// The client that fans a PREPARE or ACCEPT out to every known acceptor and
// tallies the answers (paxos/acceptor_client.go). The concurrent fan-out is
// a sequence of responses, one per acceptor, in arrival order; `None` is a
// nil response.
module PaxosClient {
  import opened Bytes
  import opened Outcomes
  import opened PaxosWire
  import GoSort

  predicate NonDecreasing(ids: seq<u64>)
  {
    forall i, j :: 0 <= i < j < |ids| ==> ids[i] <= ids[j]
  }

  function Above(ids: seq<u64>, v: u64): seq<bool>
  {
    seq(|ids|, k requires 0 <= k < |ids| => v < ids[k])
  }

  /** `sort.Search(len(list), func(i int) bool { return v < list[i].ID })`. */
  function UpperBound(ids: seq<u64>, v: u64): (r: nat)
    ensures r <= |ids|
  {
    GoSort.Search(Above(ids, v))
  }

  /** On sorted IDs the search lands after every ID not above `v`. */
  lemma UpperBoundSorted(ids: seq<u64>, v: u64)
    requires NonDecreasing(ids)
    ensures var r := UpperBound(ids, v);
      (forall k :: 0 <= k < r ==> ids[k] <= v) && (forall k :: r <= k < |ids| ==> v < ids[k])
  {
    GoSort.SearchFirstTrue(Above(ids, v));
    assert forall k :: 0 <= k < |ids| ==> Above(ids, v)[k] == (v < ids[k]);
  }

  /** Inserting at the search index keeps the IDs sorted, after any equal ones. */
  lemma InsertKeepsOrder(ids: seq<u64>, v: u64)
    requires NonDecreasing(ids)
    ensures var r := UpperBound(ids, v); NonDecreasing(ids[..r] + [v] + ids[r..])
  {
    UpperBoundSorted(ids, v);
    var r := UpperBound(ids, v);
    var s := ids[..r] + [v] + ids[r..];
    assert forall k :: 0 <= k < |s| ==> s[k] == if k < r then ids[k] else if k == r then v else ids[k - 1];
  }

  function Count(ids: seq<u64>, v: u64): nat
  {
    if ids == [] then 0 else Count(ids[..|ids| - 1], v) + (if ids[|ids| - 1] == v then 1 else 0)
  }

  lemma {:induction false} CountAppend(a: seq<u64>, b: seq<u64>, v: u64)
    ensures Count(a + b, v) == Count(a, v) + Count(b, v)
  {
    if b != [] {
      assert (a + b)[..|a + b| - 1] == a + b[..|b| - 1];
      CountAppend(a, b[..|b| - 1], v);
    } else {
      assert a + b == a;
    }
  }

  /** Inserting one ID anywhere adds one to its count and leaves the others. */
  lemma CountInsert(ids: seq<u64>, idx: nat, x: u64, v: u64)
    requires idx <= |ids|
    ensures Count(ids[..idx] + [x] + ids[idx..], v) == Count(ids, v) + (if x == v then 1 else 0)
  {
    CountAppend(ids[..idx] + [x], ids[idx..], v);
    CountAppend(ids[..idx], [x], v);
    CountAppend(ids[..idx], ids[idx..], v);
    assert ids == ids[..idx] + ids[idx..];
    assert [x][..0] == [];
  }

  function PromiseIds(s: seq<Promise>): seq<u64>
  {
    seq(|s|, k requires 0 <= k < |s| => s[k].id)
  }

  function ProposalIds(s: seq<Proposal>): seq<u64>
  {
    seq(|s|, k requires 0 <= k < |s| => s[k].id)
  }

  /** The non-nil responses in arrival order. */
  function NonNil<T>(responses: seq<Option<T>>): seq<T>
  {
    if responses == [] then []
    else
      var last := responses[|responses| - 1];
      NonNil(responses[..|responses| - 1]) + (if last.Some? then [last.value] else [])
  }

  /** The accepted proposal of highest ID, the first one met among equals, as the tally loop keeps it. */
  function Greatest(ps: seq<Promise>): Option<Proposal>
  {
    if ps == [] then None
    else
      var g := Greatest(ps[..|ps| - 1]);
      var a := ps[|ps| - 1].accepted;
      if a.None? then g else if g.None? || g.value.id < a.value.id then a else g
  }

  /** `g` is absent iff no promise carries a proposal, else one carried proposal of highest ID. */
  predicate IsGreatestAccepted(ps: seq<Promise>, g: Option<Proposal>)
  {
    && (g.None? <==> forall p :: p in ps ==> p.accepted.None?)
    && (g.Some? ==> (exists p :: p in ps && p.accepted == g)
                    && forall p :: p in ps && p.accepted.Some? ==> p.accepted.value.id <= g.value.id)
  }

  lemma {:induction false} GreatestIsGreatest(ps: seq<Promise>)
    ensures IsGreatestAccepted(ps, Greatest(ps))
  {
    if ps != [] {
      var init := ps[..|ps| - 1];
      GreatestIsGreatest(init);
      assert forall p :: p in ps <==> p in init || p == ps[|ps| - 1] by {
        assert ps == init + [ps[|ps| - 1]];
      }
    }
  }

  /** Splicing `x` into a list at any index: what the insertion changes about IDs and members. */
  lemma PromiseSplice(s: seq<Promise>, idx: nat, x: Promise)
    requires idx <= |s|
    ensures PromiseIds(s[..idx] + [x] + s[idx..]) == PromiseIds(s)[..idx] + [x.id] + PromiseIds(s)[idx..]
    ensures forall p :: p in s[..idx] + [x] + s[idx..] <==> p in s || p == x
  {
    assert s == s[..idx] + s[idx..];
  }

  lemma ProposalSplice(s: seq<Proposal>, idx: nat, x: Proposal)
    requires idx <= |s|
    ensures ProposalIds(s[..idx] + [x] + s[idx..]) == ProposalIds(s)[..idx] + [x.id] + ProposalIds(s)[idx..]
    ensures forall p :: p in s[..idx] + [x] + s[idx..] <==> p in s || p == x
  {
    assert s == s[..idx] + s[idx..];
  }

  /** Inserting a promise at the search index keeps the IDs sorted, adds it, and counts its ID once more. */
  lemma PromiseInserted(s: seq<Promise>, x: Promise, id: u64)
    requires NonDecreasing(PromiseIds(s))
    ensures var idx := UpperBound(PromiseIds(s), x.id); var r := s[..idx] + [x] + s[idx..];
      && NonDecreasing(PromiseIds(r)) && |r| == |s| + 1
      && Count(PromiseIds(r), id) == Count(PromiseIds(s), id) + (if x.id == id then 1 else 0)
      && forall p :: p in r <==> p in s || p == x
  {
    var idx := UpperBound(PromiseIds(s), x.id);
    InsertKeepsOrder(PromiseIds(s), x.id);
    PromiseSplice(s, idx, x);
    CountInsert(PromiseIds(s), idx, x.id, id);
  }

  /** The same for proposals. */
  lemma ProposalInserted(s: seq<Proposal>, x: Proposal, id: u64)
    requires NonDecreasing(ProposalIds(s))
    ensures var idx := UpperBound(ProposalIds(s), x.id); var r := s[..idx] + [x] + s[idx..];
      && NonDecreasing(ProposalIds(r)) && |r| == |s| + 1
      && Count(ProposalIds(r), id) == Count(ProposalIds(s), id) + (if x.id == id then 1 else 0)
  {
    var idx := UpperBound(ProposalIds(s), x.id);
    InsertKeepsOrder(ProposalIds(s), x.id);
    ProposalSplice(s, idx, x);
    CountInsert(ProposalIds(s), idx, x.id, id);
  }

  /** One more response extends the non-nil list by its payload, if it has one. */
  lemma NonNilStep<T>(responses: seq<Option<T>>, i: nat)
    requires i < |responses|
    ensures responses[i].None? ==> NonNil(responses[..i + 1]) == NonNil(responses[..i])
    ensures responses[i].Some? ==> NonNil(responses[..i + 1]) == NonNil(responses[..i]) + [responses[i].value]
  {
    assert responses[..i + 1][..i] == responses[..i];
  }

  /** `promises` is what the collection loop holds after the responses `seen`. */
  ghost predicate PromisesCollected(promises: seq<Promise>, seen: seq<Option<Promise>>, id: u64)
  {
    && NonDecreasing(PromiseIds(promises))
    && |promises| == |NonNil(seen)|
    && Count(PromiseIds(promises), id) == Count(PromiseIds(NonNil(seen)), id)
    && forall p :: p in promises <==> p in NonNil(seen)
  }

  /** One more response: a nil one changes nothing, a promise is inserted at the search index. */
  lemma PromisesCollectedStep(promises: seq<Promise>, seen: seq<Option<Promise>>, vote: Option<Promise>, id: u64)
    requires PromisesCollected(promises, seen, id)
    ensures vote.None? ==> PromisesCollected(promises, seen + [vote], id)
    ensures vote.Some? ==>
      var idx := UpperBound(PromiseIds(promises), vote.value.id);
      PromisesCollected(promises[..idx] + [vote.value] + promises[idx..], seen + [vote], id)
  {
    var all := seen + [vote];
    NonNilStep(all, |seen|);
    assert all[..|seen|] == seen && all[..|seen| + 1] == all;
    if vote.Some? {
      PromiseAppend(NonNil(seen), vote.value, id);
      PromiseInserted(promises, vote.value, id);
    }
  }

  /**
   * The collection loop of `Prepare`: the non-nil promises, each inserted
   * after the ones whose ID is not above its own, so the list stays sorted
   * by ID and holds the same promises with the same ID counts.
   */
  method CollectPromises(responses: seq<Option<Promise>>, id: u64) returns (promises: seq<Promise>)
    ensures NonDecreasing(PromiseIds(promises))
    ensures |promises| == |NonNil(responses)|
    ensures Count(PromiseIds(promises), id) == Count(PromiseIds(NonNil(responses)), id)
    ensures forall p :: p in promises <==> p in NonNil(responses)
  {
    promises := [];
    var i := 0;
    while i < |responses|
      invariant 0 <= i <= |responses|
      invariant PromisesCollected(promises, responses[..i], id)
    {
      var vote := responses[i];
      assert responses[..i + 1] == responses[..i] + [vote];
      PromisesCollectedStep(promises, responses[..i], vote, id);
      if vote.Some? {
        var promise := vote.value;
        var idx := UpperBound(PromiseIds(promises), promise.id);
        promises := promises[..idx] + [promise] + promises[idx..];
      }
      i := i + 1;
    }
    assert responses[..i] == responses;
  }

  /** Appending a promise appends its ID and counts it once more if it carries `id`. */
  lemma PromiseAppend(s: seq<Promise>, x: Promise, id: u64)
    ensures PromiseIds(s + [x]) == PromiseIds(s) + [x.id]
    ensures Count(PromiseIds(s + [x]), id) == Count(PromiseIds(s), id) + (if x.id == id then 1 else 0)
  {
    assert PromiseIds(s + [x]) == PromiseIds(s) + [x.id];
    assert [x.id][..0] == [];
    CountAppend(PromiseIds(s), [x.id], id);
  }

  /** The same for proposals. */
  lemma ProposalAppend(s: seq<Proposal>, x: Proposal, id: u64)
    ensures ProposalIds(s + [x]) == ProposalIds(s) + [x.id]
    ensures Count(ProposalIds(s + [x]), id) == Count(ProposalIds(s), id) + (if x.id == id then 1 else 0)
  {
    assert ProposalIds(s + [x]) == ProposalIds(s) + [x.id];
    assert [x.id][..0] == [];
    CountAppend(ProposalIds(s), [x.id], id);
  }

  /** The collection loop of `Accept`, as `CollectPromises` for proposals. */
  method CollectProposals(responses: seq<Option<Proposal>>, id: u64) returns (proposals: seq<Proposal>)
    ensures NonDecreasing(ProposalIds(proposals))
    ensures |proposals| == |NonNil(responses)|
    ensures Count(ProposalIds(proposals), id) == Count(ProposalIds(NonNil(responses)), id)
  {
    proposals := [];
    var i := 0;
    while i < |responses|
      invariant 0 <= i <= |responses|
      invariant NonDecreasing(ProposalIds(proposals))
      invariant |proposals| == |NonNil(responses[..i])|
      invariant Count(ProposalIds(proposals), id) == Count(ProposalIds(NonNil(responses[..i])), id)
    {
      var vote := responses[i];
      NonNilStep(responses, i);
      if vote.Some? {
        var p := vote.value;
        ProposalAppend(NonNil(responses[..i]), p, id);
        var idx := UpperBound(ProposalIds(proposals), p.id);
        ProposalInserted(proposals, p, id);
        proposals := proposals[..idx] + [p] + proposals[idx..];
      }
      i := i + 1;
    }
    assert responses[..i] == responses;
  }

  /**
   * `MultiAcceptorClient.Prepare` with the majority and size it loads, one
   * response per acceptor. Nil responses are skipped; the rest are kept
   * sorted by ID. With at least `majority` promises, of which at least
   * `majority` carry the request's ID, the reply carries that ID and the
   * highest-ID accepted proposal; every other case replies with the zero
   * promise.
   */
  method Prepare(majority: int, size: nat, request: Request, responses: seq<Option<Promise>>) returns (r: Promise)
    requires |responses| == size
    ensures size == 0 || size < majority ==> r == EmptyPromise
    ensures size != 0 && size >= majority ==>
      var ps := NonNil(responses);
      if |ps| >= majority && Count(PromiseIds(ps), request.id) >= majority
      then r.id == request.id && IsGreatestAccepted(ps, r.accepted)
      else r == EmptyPromise
  {
    if size == 0 || size < majority {
      return EmptyPromise;
    }
    var promises := CollectPromises(responses, request.id);
    if |promises| < majority {
      return EmptyPromise;
    }

    var greatest: Option<Proposal> := None;
    var votesForRequest := 0;
    var k := 0;
    while k < |promises|
      invariant 0 <= k <= |promises|
      invariant greatest == Greatest(promises[..k])
      invariant votesForRequest == Count(PromiseIds(promises[..k]), request.id)
    {
      var promise := promises[k];
      assert promises[..k + 1] == promises[..k] + [promise];
      PromiseAppend(promises[..k], promise, request.id);
      if promise.accepted.Some? {
        if greatest.None? {
          greatest := promise.accepted;
        } else if greatest.value.id < promise.accepted.value.id {
          greatest := promise.accepted;
        }
      }
      if promise.id == request.id {
        votesForRequest := votesForRequest + 1;
      }
      k := k + 1;
    }
    assert promises[..k] == promises;
    GreatestIsGreatest(promises);

    if majority <= votesForRequest {
      return Promise(request.id, greatest);
    }
    return EmptyPromise;
  }

  /**
   * `MultiAcceptorClient.Accept` with the majority and size it loads and one
   * response per acceptor it sent to. It echoes the proposal iff at least
   * `majority` non-nil responses arrived and at least `majority` of them
   * carry the proposal's ID; otherwise it replies with the zero proposal.
   */
  method Accept(majority: int, size: nat, proposal: Proposal, responses: seq<Option<Proposal>>) returns (r: Proposal)
    ensures size == 0 ==> r == EmptyProposal
    ensures size != 0 ==>
      var ps := NonNil(responses);
      r == if |ps| >= majority && Count(ProposalIds(ps), proposal.id) >= majority then proposal else EmptyProposal
  {
    if size == 0 {
      return EmptyProposal;
    }
    var proposals := CollectProposals(responses, proposal.id);
    if |proposals| < majority {
      return EmptyProposal;
    }

    var votesForRequest := 0;
    var k := 0;
    while k < |proposals|
      invariant 0 <= k <= |proposals|
      invariant votesForRequest == Count(ProposalIds(proposals[..k]), proposal.id)
    {
      assert proposals[..k + 1] == proposals[..k] + [proposals[k]];
      ProposalAppend(proposals[..k], proposals[k], proposal.id);
      if proposal.id == proposals[k].id {
        votesForRequest := votesForRequest + 1;
      }
      k := k + 1;
    }
    assert proposals[..k] == proposals;

    if majority <= votesForRequest {
      return proposal;
    }
    return EmptyProposal;
  }

  /** The acceptor cache: one client per member, and the member count kept beside it. */
  class MultiAcceptorClient {
    var members: set<string>
    var size: int
    var majority: int

    ghost predicate Valid()
      reads this
    {
      size == |members|
    }

    constructor ()
      ensures Valid() && members == {} && majority == 0
    {
      members := {};
      size := 0;
      majority := 0;
    }

    /** `add`: after a dial that succeeded, store the client unless one is cached; count only a new one. */
    method Add(member: string, dialed: bool)
      requires Valid()
      modifies this
      ensures Valid() && majority == old(majority)
      ensures members == if dialed then old(members) + {member} else old(members)
      ensures size == old(size) + (if dialed && member !in old(members) then 1 else 0)
    {
      if !dialed {
        return;
      }
      if member !in members {
        members := members + {member};
        size := size + 1;
      }
    }

    /** `remove`: delete the cached client, counting down only when one was there. */
    method Remove(member: string)
      requires Valid()
      modifies this
      ensures Valid() && majority == old(majority)
      ensures members == old(members) - {member}
      ensures size == old(size) - (if member in old(members) then 1 else 0)
    {
      if member in members {
        members := members - {member};
        size := size - 1;
      }
    }
  }

  /** What the Go code does with the responses: a reply, or a panic on a nil dereference. */
  datatype Outcome<T> = Replied(reply: T) | Panicked

  /**
   * The collection step as written, for either kind of response: a nil
   * pointer stored in `Vote.Payload` makes an interface that is not nil, so
   * `vote.Payload == nil` never skips it, and `sort.Search` reads the ID of
   * the new response and of every list entry it probes.
   */
  function InsertAsWritten<T>(list: seq<Option<T>>, v: Option<T>, idOf: T -> u64): Option<seq<Option<T>>>
  {
    if list == [] then Some([v])
    else if v.None? then None
    else
      var flags := seq(|list|, k requires 0 <= k < |list| => list[k].Some? && idOf(v.value) < idOf(list[k].value));
      if exists k :: k in GoSort.Probes(flags, 0, |list|) && list[k].None? then None
      else
        var idx := GoSort.SearchIn(flags, 0, |list|);
        Some(list[..idx] + [v] + list[idx..])
  }

  function CollectAsWritten<T>(responses: seq<Option<T>>, idOf: T -> u64): Option<seq<Option<T>>>
  {
    if responses == [] then Some([])
    else match CollectAsWritten(responses[..|responses| - 1], idOf)
      case None => None
      case Some(list) => InsertAsWritten(list, responses[|responses| - 1], idOf)
  }

  function PromiseId(p: Promise): u64
  {
    p.id
  }

  function ProposalId(p: Proposal): u64
  {
    p.id
  }

  function PrepareAsWritten(majority: int, size: nat, request: Request, responses: seq<Option<Promise>>): Outcome<Promise>
  {
    if size == 0 || size < majority then Replied(EmptyPromise)
    else match CollectAsWritten(responses, PromiseId)
      case None => Panicked
      case Some(list) =>
        if |list| < majority then Replied(EmptyPromise)
        else if exists k :: 0 <= k < |list| && list[k].None? then Panicked
        else
          var ps := NonNil(list);
          if majority <= Count(PromiseIds(ps), request.id) then Replied(Promise(request.id, Greatest(ps)))
          else Replied(EmptyPromise)
  }

  /**
   * `Accept` as written: `sendAccept` overwrites its argument with the nil
   * proposal a failed call returns and sends it in a `Vote`, which the
   * collection keeps; the tally then reads its ID.
   */
  function AcceptAsWritten(majority: int, size: nat, proposal: Proposal, responses: seq<Option<Proposal>>): Outcome<Proposal>
  {
    if size == 0 then Replied(EmptyProposal)
    else match CollectAsWritten(responses, ProposalId)
      case None => Panicked
      case Some(list) =>
        if |list| < majority then Replied(EmptyProposal)
        else if exists k :: 0 <= k < |list| && list[k].None? then Panicked
        else if majority <= Count(ProposalIds(NonNil(list)), proposal.id) then Replied(proposal)
        else Replied(EmptyProposal)
  }

  /**
   * With a single acceptor whose call failed, the code as written panics
   * where a nil response was meant to be skipped (the intended reply is the
   * zero promise, as `Prepare` gives).
   */
  lemma FailedAcceptorPanics(request: Request)
    ensures PrepareAsWritten(1, 1, request, [None]) == Panicked
    ensures NonNil<Promise>([None]) == []
  {
    var one: seq<Option<Promise>> := [None];
    assert one[..0] == [];
    assert CollectAsWritten(one, PromiseId) == Some(one);
    assert one[0].None?;
  }

  /**
   * The same for `Accept`: one acceptor whose call failed makes the code as
   * written panic, where skipping it gives the zero proposal, as `Accept`
   * does.
   */
  lemma FailedAcceptorPanicsOnAccept(proposal: Proposal)
    ensures AcceptAsWritten(1, 1, proposal, [None]) == Panicked
    ensures NonNil<Proposal>([None]) == []
  {
    var one: seq<Option<Proposal>> := [None];
    assert one[..0] == [];
    assert CollectAsWritten(one, ProposalId) == Some(one);
    assert one[0].None?;
  }
}
