/**
  The multi-signature login flow of src/api/authMultisig.ts: what each handler does to
  the flow it has read, and the handlers as atomic calls.
*/
module Multisig {
  import opened Wrappers

  datatype Error =
    | BadRequest | NotFound | AlreadyCompleted | NotASigner | AlreadySigned | InvalidSignature | ThresholdNotMet

  datatype Result<+T> = Ok(value: T) | Err(error: Error)

  datatype Signer = Signer(address: string, weight: int, signed: bool, signature: Option<string>)

  datatype Flow = Flow(flowId: string, multisigAddress: string, challenge: string, signers: seq<Signer>,
                       threshold: int, completed: bool, appId: string)

  /** The body of an initiation request; a field is None when it is missing. */
  datatype Request = Request(multisigAddress: string, signers: Option<seq<(string, int)>>, threshold: int,
                             appId: string)

  /** Signature verification: address, message and signature. */
  type Verifier = (string, string, string) -> bool

  function Challenge(multisigAddress: string, nonce: string, flowId: string): string {
    "Authenticate multi-sig wallet " + multisigAddress + " [nonce: " + nonce + "] [flow: " + flowId + "]"
  }

  function Open(r: Request, flowId: string, nonce: string): Result<Flow> {
    if r.multisigAddress == "" || r.signers.None? || r.threshold == 0 then Err(BadRequest)
    else
      var given := r.signers.value;
      Ok(Flow(flowId, r.multisigAddress, Challenge(r.multisigAddress, nonce, flowId),
              seq(|given|, i requires 0 <= i < |given| => Signer(given[i].0, given[i].1, false, None)),
              r.threshold, false, r.appId))
  }

  /** `signers.find`: the first signer with the address, or the number of signers. */
  function Find(signers: seq<Signer>, address: string): (i: nat)
    ensures i <= |signers| && (i < |signers| ==> signers[i].address == address)
    ensures forall j :: 0 <= j < i ==> signers[j].address != address
  {
    if signers == [] || signers[0].address == address then 0 else 1 + Find(signers[1..], address)
  }

  function SignedWeight(signers: seq<Signer>): int {
    if signers == [] then 0
    else (if signers[0].signed then signers[0].weight else 0) + SignedWeight(signers[1..])
  }

  /** What `/contribute` writes back after reading the flow. */
  function Contributed(verify: Verifier, flowId: string, read: Option<Flow>, address: string, signature: string)
    : Result<Flow>
  {
    if flowId == "" || address == "" || signature == "" then Err(BadRequest)
    else if read.None? then Err(NotFound)
    else if read.value.completed then Err(AlreadyCompleted)
    else
      var flow := read.value;
      var i := Find(flow.signers, address);
      if i == |flow.signers| then Err(NotASigner)
      else if flow.signers[i].signed then Err(AlreadySigned)
      else if !verify(address, flow.challenge, signature) then Err(InvalidSignature)
      else
        var signer := flow.signers[i].(signed := true, signature := Some(signature));
        Ok(flow.(signers := flow.signers[i := signer]))
  }

  /** What `/complete` writes back after reading the flow. */
  function Completed(flowId: string, read: Option<Flow>): Result<Flow> {
    if flowId == "" then Err(BadRequest)
    else if read.None? then Err(NotFound)
    else if read.value.completed then Err(AlreadyCompleted)
    else if SignedWeight(read.value.signers) < read.value.threshold then Err(ThresholdNotMet)
    else Ok(read.value.(completed := true))
  }

  // ---- what a flow promises -----------------------------------------------------------

  ghost predicate SameTerms(o: Flow, f: Flow) {
    && f.flowId == o.flowId && f.multisigAddress == o.multisigAddress && f.challenge == o.challenge
    && f.threshold == o.threshold && f.appId == o.appId && |f.signers| == |o.signers|
    && forall i :: 0 <= i < |f.signers| ==>
        f.signers[i].address == o.signers[i].address && f.signers[i].weight == o.signers[i].weight
  }

  /** Every signed entry carries a signature of its address over the flow's own challenge, and
      is the first entry with that address. */
  ghost predicate WellSigned(verify: Verifier, f: Flow) {
    forall i :: 0 <= i < |f.signers| && f.signers[i].signed ==>
      && f.signers[i].signature.Some?
      && verify(f.signers[i].address, f.challenge, f.signers[i].signature.value)
      && forall j :: 0 <= j < i ==> f.signers[j].address != f.signers[i].address
  }

  /** The challenge names the flow it was issued for. */
  ghost predicate NamesFlow(f: Flow) {
    exists front :: f.challenge == front + " [flow: " + f.flowId + "]"
  }

  ghost predicate Grown(verify: Verifier, o: Flow, f: Flow) {
    SameTerms(o, f) && WellSigned(verify, f)
  }

  /** The flow entitles its wallet to a token: distinct addresses, each with a valid signature
      over this flow's challenge, of at least the weight the flow was opened with. */
  ghost predicate Entitled(verify: Verifier, o: Flow, f: Flow) {
    && Grown(verify, o, f) && NamesFlow(f)
    && SignedWeight(f.signers) >= o.threshold
    && forall i, j :: 0 <= i < j < |f.signers| && f.signers[i].signed && f.signers[j].signed ==>
        f.signers[i].address != f.signers[j].address
  }

  lemma OpenGrown(verify: Verifier, r: Request, flowId: string, nonce: string)
    requires Open(r, flowId, nonce).Ok?
    ensures Grown(verify, Open(r, flowId, nonce).value, Open(r, flowId, nonce).value)
    ensures NamesFlow(Open(r, flowId, nonce).value) && Open(r, flowId, nonce).value.flowId == flowId
  {
    var front := "Authenticate multi-sig wallet " + r.multisigAddress + " [nonce: " + nonce + "]";
    assert Challenge(r.multisigAddress, nonce, flowId) == front + " [flow: " + flowId + "]";
  }

  /** No signature can count for two flows with ids of the same length: their challenges differ. */
  lemma ChallengesDiffer(f: Flow, g: Flow)
    requires NamesFlow(f) && NamesFlow(g) && |f.flowId| == |g.flowId|
    ensures f.challenge == g.challenge ==> f.flowId == g.flowId
  {
    if f.challenge == g.challenge {
      var a :| f.challenge == a + " [flow: " + f.flowId + "]";
      var b :| g.challenge == b + " [flow: " + g.flowId + "]";
      var n, m := |f.challenge|, |f.flowId|;
      assert f.challenge[n - 1 - m..n - 1] == f.flowId;
      assert g.challenge[n - 1 - m..n - 1] == g.flowId;
    }
  }

  lemma ContributedGrown(verify: Verifier, o: Flow, flowId: string, read: Option<Flow>, address: string,
                         signature: string)
    requires Contributed(verify, flowId, read, address, signature).Ok?
    requires read.Some? ==> Grown(verify, o, read.value)
    ensures Grown(verify, o, Contributed(verify, flowId, read, address, signature).value)
  {
  }

  lemma {:induction false} WeightUpdate(signers: seq<Signer>, i: nat, s: Signer)
    requires i < |signers| && !signers[i].signed && s.signed
    ensures SignedWeight(signers[i := s]) == SignedWeight(signers) + s.weight
  {
    if i == 0 {
      assert signers[0 := s][1..] == signers[1..];
    } else {
      assert signers[i := s][1..] == signers[1..][i - 1 := s];
      WeightUpdate(signers[1..], i - 1, s);
    }
  }

  /** A contribution adds exactly the weight of one signer. */
  lemma ContributionWeight(verify: Verifier, f: Flow, address: string, signature: string)
    requires Contributed(verify, f.flowId, Some(f), address, signature).Ok?
    ensures var i := Find(f.signers, address);
            i < |f.signers| &&
            SignedWeight(Contributed(verify, f.flowId, Some(f), address, signature).value.signers)
            == SignedWeight(f.signers) + f.signers[i].weight
  {
    var i := Find(f.signers, address);
    WeightUpdate(f.signers, i, f.signers[i].(signed := true, signature := Some(signature)));
  }

  lemma CompletedEntitled(verify: Verifier, o: Flow, flowId: string, read: Option<Flow>)
    requires Completed(flowId, read).Ok? && NamesFlow(o)
    requires read.Some? ==> Grown(verify, o, read.value)
    ensures Entitled(verify, o, Completed(flowId, read).value)
  {
    var front :| o.challenge == front + " [flow: " + o.flowId + "]";
    var g := Completed(flowId, read).value;
    assert g.challenge == front + " [flow: " + g.flowId + "]";
  }

  // ---- atomic handlers --------------------------------------------------------------------

  /** The handlers when each runs to its end before the next begins. */
  class Server {
    const verify: Verifier
    var store: map<string, Flow>
    var issued: seq<Flow>
    ghost var initiated: map<string, Flow>

    ghost predicate Valid()
      reads this
    {
      && (forall id :: id in initiated ==> initiated[id].flowId == id && NamesFlow(initiated[id]))
      && (forall id :: id in store ==> id in initiated && Grown(verify, initiated[id], store[id]))
      && (forall f :: f in issued ==> f.flowId in initiated && Entitled(verify, initiated[f.flowId], f))
      && (forall f :: f in issued && f.flowId in store ==> store[f.flowId].completed)
      && (forall i, j :: 0 <= i < j < |issued| ==> issued[i].flowId != issued[j].flowId)
    }

    function Read(flowId: string): Option<Flow>
      reads this
    {
      if flowId in store then Some(store[flowId]) else None
    }

    constructor (verify: Verifier)
      ensures Valid() && store == map[] && issued == [] && initiated == map[] && this.verify == verify
    {
      this.verify := verify;
      store, issued, initiated := map[], [], map[];
    }

    /** flowId and nonce are the random values drawn by the handler. */
    method Initiate(r: Request, flowId: string, nonce: string) returns (response: Result<Flow>)
      requires Valid() && flowId !in initiated
      modifies this
      ensures Valid() && issued == old(issued) && response == Open(r, flowId, nonce)
      ensures store == if response.Ok? then old(store)[flowId := response.value] else old(store)
      ensures initiated == if response.Ok? then old(initiated)[flowId := response.value] else old(initiated)
    {
      response := Open(r, flowId, nonce);
      if response.Ok? {
        OpenGrown(verify, r, flowId, nonce);
        store := store[flowId := response.value];
        initiated := initiated[flowId := response.value];
      }
    }

    /** The answer says whether a completion would now succeed. */
    method Contribute(flowId: string, address: string, signature: string) returns (ready: Result<bool>)
      requires Valid()
      modifies this
      ensures Valid() && issued == old(issued) && initiated == old(initiated)
      ensures var next := Contributed(verify, flowId, old(Read(flowId)), address, signature);
              && store == (if next.Ok? then old(store)[flowId := next.value] else old(store))
              && ready == (if next.Ok? then Ok(Completed(flowId, Read(flowId)).Ok?) else Err(next.error))
    {
      hide SignedWeight, WellSigned, SameTerms, NamesFlow;
      var next := Contributed(verify, flowId, Read(flowId), address, signature);
      if next.Err? {
        return Err(next.error);
      }
      ContributedGrown(verify, initiated[flowId], flowId, Read(flowId), address, signature);
      store := store[flowId := next.value];
      ready := Ok(SignedWeight(next.value.signers) >= next.value.threshold);
    }

    /** A token is issued exactly when the stored flow is open and its threshold is met; `Valid`
        says that this happens at most once per flow. */
    method Complete(flowId: string) returns (token: Result<Flow>)
      requires Valid()
      modifies this
      ensures Valid() && initiated == old(initiated) && token == Completed(flowId, old(Read(flowId)))
      ensures store == if token.Ok? then old(store)[flowId := token.value] else old(store)
      ensures issued == if token.Ok? then old(issued) + [token.value] else old(issued)
    {
      hide WellSigned, NamesFlow, SignedWeight;
      token := Completed(flowId, Read(flowId));
      if token.Ok? {
        CompletedEntitled(verify, initiated[flowId], flowId, Read(flowId));
        store := store[flowId := token.value];
        issued := issued + [token.value];
      }
    }

    /** The cache drops a flow when its time is over. */
    method Expire(flowId: string)
      requires Valid()
      modifies `store
      ensures Valid() && store == old(store) - {flowId}
    {
      store := store - {flowId};
    }
  }
}
