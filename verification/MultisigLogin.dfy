/**
  That the login flow of src/api/authMultisig.ts lets wallets in: what a group of signers
  gets from initiation to completion, and what every refusal means.
*/
module MultisigLogin {
  import opened Wrappers
  import opened Multisig

  type Contribution = (string, string)       // address and signature

  /** The request can be opened, and no address is listed twice. */
  predicate WellFormed(r: Request, flowId: string) {
    && flowId != "" && r.multisigAddress != "" && r.signers.Some? && r.threshold != 0
    && (forall i, j :: 0 <= i < j < |r.signers.value| ==> r.signers.value[i].0 != r.signers.value[j].0)
  }

  predicate Listed(given: seq<(string, int)>, address: string) {
    exists j :: 0 <= j < |given| && given[j].0 == address
  }

  /** What a wallet is asked to sign. */
  function Text(multisigAddress: string, nonce: string, flowId: string): string {
    "Authenticate multi-sig wallet " + multisigAddress + " [nonce: " + nonce + "] [flow: " + flowId + "]"
  }

  /** Different listed signers, each with a valid signature over that text. */
  predicate Signing(verify: Verifier, r: Request, flowId: string, nonce: string, cs: seq<Contribution>)
    requires r.signers.Some?
  {
    && (forall k :: 0 <= k < |cs| ==>
          Listed(r.signers.value, cs[k].0) && cs[k].0 != "" && cs[k].1 != ""
          && verify(cs[k].0, Text(r.multisigAddress, nonce, flowId), cs[k].1))
    && (forall k, l :: 0 <= k < l < |cs| ==> cs[k].0 != cs[l].0)
  }

  /** The weight the request lists for an address. */
  function WeightOf(given: seq<(string, int)>, address: string): int {
    if given == [] then 0 else if given[0].0 == address then given[0].1 else WeightOf(given[1..], address)
  }

  function TotalWeight(given: seq<(string, int)>, cs: seq<Contribution>): int {
    if cs == [] then 0
    else TotalWeight(given, cs[..|cs| - 1]) + WeightOf(given, cs[|cs| - 1].0)
  }

  lemma {:induction false} WeightAt(given: seq<(string, int)>, j: nat)
    requires j < |given| && forall i :: 0 <= i < j ==> given[i].0 != given[j].0
    ensures WeightOf(given, given[j].0) == given[j].1
  {
    if j > 0 {
      WeightAt(given[1..], j - 1);
    }
  }

  /** The stored flow after the contributions. */
  ghost predicate Reached(r: Request, flowId: string, nonce: string, cs: seq<Contribution>, f: Flow)
    requires r.signers.Some?
  {
    var given := r.signers.value;
    && f.flowId == flowId && f.multisigAddress == r.multisigAddress && f.appId == r.appId
    && !f.completed && f.challenge == Text(r.multisigAddress, nonce, flowId)
    && f.threshold == r.threshold && |f.signers| == |given|
    && (forall j :: 0 <= j < |given| ==>
          f.signers[j].address == given[j].0 && f.signers[j].weight == given[j].1
          && (f.signers[j].signed ==> Contributes(cs, given[j].0)))
    && SignedWeight(f.signers) == TotalWeight(given, cs)
  }

  /** The completed flow is that of the request. */
  predicate Serves(f: Flow, r: Request, flowId: string) {
    f.flowId == flowId && f.multisigAddress == r.multisigAddress && f.appId == r.appId && f.completed
  }

  predicate Contributes(cs: seq<Contribution>, address: string) {
    exists k :: 0 <= k < |cs| && cs[k].0 == address
  }

  lemma {:induction false} NoneSigned(signers: seq<Signer>)
    requires forall j :: 0 <= j < |signers| ==> !signers[j].signed
    ensures SignedWeight(signers) == 0
  {
    if signers != [] {
      NoneSigned(signers[1..]);
    }
  }

  lemma Opened(r: Request, flowId: string, nonce: string)
    requires WellFormed(r, flowId)
    ensures Open(r, flowId, nonce).Ok? && Reached(r, flowId, nonce, [], Open(r, flowId, nonce).value)
  {
    NoneSigned(Open(r, flowId, nonce).value.signers);
  }

  lemma TotalSnoc(given: seq<(string, int)>, cs: seq<Contribution>, k: nat)
    requires k < |cs|
    ensures TotalWeight(given, cs[..k + 1]) == TotalWeight(given, cs[..k]) + WeightOf(given, cs[k].0)
  {
    assert cs[..k + 1][..k] == cs[..k];
  }

  lemma FirstNotBefore(cs: seq<Contribution>, k: nat)
    requires k < |cs| && forall i, j :: 0 <= i < j < |cs| ==> cs[i].0 != cs[j].0
    ensures !Contributes(cs[..k], cs[k].0)
  {
  }

  /** The next contribution is accepted and adds its weight. */
  lemma NextContribution(verify: Verifier, r: Request, flowId: string, nonce: string, cs: seq<Contribution>,
                         k: nat, f: Flow)
    requires WellFormed(r, flowId) && Signing(verify, r, flowId, nonce, cs) && k < |cs|
    requires Reached(r, flowId, nonce, cs[..k], f)
    ensures var next := Contributed(verify, flowId, Some(f), cs[k].0, cs[k].1);
            next.Ok? && Reached(r, flowId, nonce, cs[..k + 1], next.value)
  {
    hide SignedWeight, TotalWeight, WeightOf, Contributes, Text;
    var given := r.signers.value;
    var address := cs[k].0;
    var j :| 0 <= j < |given| && given[j].0 == address;
    FoundAt(f.signers, address, j);
    FirstNotBefore(cs, k);
    WeightAt(given, j);
    TotalSnoc(given, cs, k);
    ContributionWeight(verify, f, address, cs[k].1);
    forall a | Contributes(cs[..k], a) || a == address
      ensures Contributes(cs[..k + 1], a)
    {
      StillContributes(cs, k, a);
    }
  }

  lemma StillContributes(cs: seq<Contribution>, k: nat, address: string)
    requires k < |cs| && (Contributes(cs[..k], address) || cs[k].0 == address)
    ensures Contributes(cs[..k + 1], address)
  {
    if Contributes(cs[..k], address) {
      var i :| 0 <= i < |cs[..k]| && cs[..k][i].0 == address;
      assert cs[..k + 1][i].0 == address;
    } else {
      assert cs[..k + 1][k].0 == address;
    }
  }

  lemma FoundAt(signers: seq<Signer>, address: string, j: nat)
    requires j < |signers| && signers[j].address == address && address != ""
    requires forall i :: 0 <= i < |signers| && i != j ==> signers[i].address != address
    ensures Find(signers, address) == j
  {
  }

  lemma GoodId(r: Request, flowId: string)
    requires WellFormed(r, flowId)
    ensures flowId != "" && r.signers.Some?
  {
  }

  /** The k-th contribution, made to the stored flow. */
  method ContributeNext(s: Server, r: Request, flowId: string, ghost nonce: string, cs: seq<Contribution>, k: nat)
    returns (ready: bool)
    requires s.Valid() && WellFormed(r, flowId) && Signing(s.verify, r, flowId, nonce, cs) && k < |cs|
    requires flowId in s.store && Reached(r, flowId, nonce, cs[..k], s.store[flowId])
    modifies s
    ensures s.Valid() && s.issued == old(s.issued)
    ensures flowId in s.store && Reached(r, flowId, nonce, cs[..k + 1], s.store[flowId])
    ensures ready <==> TotalWeight(r.signers.value, cs[..k + 1]) >= r.threshold
  {
    hide WellFormed, Signing, TotalWeight, Contributed, SignedWeight, Reached, Completed;
    GoodId(r, flowId);
    NextContribution(s.verify, r, flowId, nonce, cs, k, s.store[flowId]);
    var answer := s.Contribute(flowId, cs[k].0, cs[k].1);
    WhenCompletable(r, flowId, nonce, cs[..k + 1], s.store[flowId]);
    ready := answer.value;
  }

  /** From initiation on, any listed signers contribute in any order; each is told whether the
      weights so far reach the threshold, and the completion gives a token exactly if they do, the
      threshold itself being enough. */
  method LogIn(s: Server, r: Request, flowId: string, nonce: string, cs: seq<Contribution>)
    returns (ready: seq<bool>, token: Result<Flow>)
    requires s.Valid() && flowId !in s.initiated
    requires WellFormed(r, flowId) && Signing(s.verify, r, flowId, nonce, cs)
    modifies s
    ensures s.Valid() && |ready| == |cs|
    ensures forall k :: 0 <= k < |cs| ==>
              (ready[k] <==> TotalWeight(r.signers.value, cs[..k + 1]) >= r.threshold)
    ensures if TotalWeight(r.signers.value, cs) >= r.threshold
            then token.Ok? && s.issued == old(s.issued) + [token.value] && Serves(token.value, r, flowId)
            else token == Err(ThresholdNotMet) && s.issued == old(s.issued)
  {
    hide WellFormed, Signing, TotalWeight, Reached;
    GoodId(r, flowId);
    Enter(s, r, flowId, nonce);
    ready := ContributeAll(s, r, flowId, nonce, cs);
    token := Finish(s, r, flowId, nonce, cs);
  }

  method Enter(s: Server, r: Request, flowId: string, nonce: string)
    requires s.Valid() && flowId !in s.initiated && WellFormed(r, flowId)
    modifies s
    ensures s.Valid() && s.issued == old(s.issued) && r.signers.Some?
    ensures flowId in s.store && Reached(r, flowId, nonce, [], s.store[flowId])
  {
    hide WellFormed, Reached, Open;
    GoodId(r, flowId);
    Opened(r, flowId, nonce);
    var response := s.Initiate(r, flowId, nonce);
  }

  method ContributeAll(s: Server, r: Request, flowId: string, ghost nonce: string, cs: seq<Contribution>)
    returns (ready: seq<bool>)
    requires s.Valid() && WellFormed(r, flowId) && Signing(s.verify, r, flowId, nonce, cs)
    requires flowId in s.store && Reached(r, flowId, nonce, [], s.store[flowId])
    modifies s
    ensures s.Valid() && s.issued == old(s.issued) && |ready| == |cs|
    ensures flowId in s.store && Reached(r, flowId, nonce, cs, s.store[flowId])
    ensures forall k :: 0 <= k < |cs| ==>
              (ready[k] <==> TotalWeight(r.signers.value, cs[..k + 1]) >= r.threshold)
  {
    hide WellFormed, Signing, TotalWeight, Reached;
    GoodId(r, flowId);
    ready := [];
    for k := 0 to |cs|
      invariant s.Valid() && s.issued == old(s.issued) && |ready| == k
      invariant flowId in s.store && Reached(r, flowId, nonce, cs[..k], s.store[flowId])
      invariant forall i :: 0 <= i < k ==> (ready[i] <==> TotalWeight(r.signers.value, cs[..i + 1]) >= r.threshold)
    {
      var now := ContributeNext(s, r, flowId, nonce, cs, k);
      ready := ready + [now];
    }
    assert cs[..|cs|] == cs;
  }

  method Finish(s: Server, r: Request, flowId: string, ghost nonce: string, cs: seq<Contribution>)
    returns (token: Result<Flow>)
    requires s.Valid() && flowId != "" && r.signers.Some?
    requires flowId in s.store && Reached(r, flowId, nonce, cs, s.store[flowId])
    modifies s
    ensures s.Valid()
    ensures if TotalWeight(r.signers.value, cs) >= r.threshold
            then token.Ok? && s.issued == old(s.issued) + [token.value] && Serves(token.value, r, flowId)
            else token == Err(ThresholdNotMet) && s.issued == old(s.issued)
  {
    hide TotalWeight, Reached, Completed;
    WhenCompletable(r, flowId, nonce, cs, s.store[flowId]);
    token := s.Complete(flowId);
  }

  lemma WhenCompletable(r: Request, flowId: string, nonce: string, cs: seq<Contribution>, f: Flow)
    requires r.signers.Some? && flowId != "" && Reached(r, flowId, nonce, cs, f)
    ensures Completed(flowId, Some(f)) ==
            if TotalWeight(r.signers.value, cs) >= r.threshold then Ok(f.(completed := true)) else Err(ThresholdNotMet)
    ensures Serves(f.(completed := true), r, flowId)
  {
  }

  // ---- refusals ----------------------------------------------------------------------------

  predicate First(signers: seq<Signer>, address: string, i: nat) {
    i < |signers| && signers[i].address == address && forall j :: 0 <= j < i ==> signers[j].address != address
  }

  /** The first signer with the address exists and has signed, or has not. */
  ghost predicate FirstHas(signers: seq<Signer>, address: string, signed: bool) {
    exists i: nat :: First(signers, address, i) && signers[i].signed == signed
  }

  lemma FirstIsFound(signers: seq<Signer>, address: string, signed: bool)
    ensures var i := Find(signers, address);
            FirstHas(signers, address, signed) <==> i < |signers| && signers[i].signed == signed
  {
    var i := Find(signers, address);
    if i < |signers| {
      assert First(signers, address, i);
    }
    forall k: nat | First(signers, address, k)
      ensures k == i
    {
      assert signers[k].address == address;
    }
  }

  /** A request is refused iff it names no wallet, no signers or no threshold; otherwise it opens the
      flow with the listed signers, none of whom has signed. */
  lemma InitiationAnswer(r: Request, flowId: string, nonce: string)
    ensures var flow := Open(r, flowId, nonce);
            && (flow == Err(BadRequest) <==> r.multisigAddress == "" || r.signers == None || r.threshold == 0)
            && (flow != Err(BadRequest) ==>
                  flow.Ok? && !flow.value.completed && flow.value.threshold == r.threshold
                  && |flow.value.signers| == |r.signers.value|
                  && forall i :: 0 <= i < |r.signers.value| ==>
                       flow.value.signers[i] == Signer(r.signers.value[i].0, r.signers.value[i].1, false, None))
  {
  }

  /** What each answer to a contribution means. */
  lemma ContributionAnswer(verify: Verifier, flowId: string, read: Option<Flow>, address: string, signature: string)
    ensures var next := Contributed(verify, flowId, read, address, signature);
            var given := flowId != "" && address != "" && signature != "";
            var open := given && read.Some? && !read.value.completed;
            var yes := open && FirstHas(read.value.signers, address, true);
            var no := open && FirstHas(read.value.signers, address, false);
            && (next == Err(BadRequest) <==> !given)
            && (next == Err(NotFound) <==> given && read == None)
            && (next == Err(AlreadyCompleted) <==> given && read.Some? && read.value.completed)
            && (next == Err(NotASigner) <==> open && !yes && !no)
            && (next == Err(AlreadySigned) <==> yes)
            && (next == Err(InvalidSignature) <==> no && !verify(address, read.value.challenge, signature))
            && (next.Ok? <==> no && verify(address, read.value.challenge, signature))
  {
    hide FirstHas;
    if read.Some? {
      FirstIsFound(read.value.signers, address, true);
      FirstIsFound(read.value.signers, address, false);
    }
  }

  /** What each answer to a completion means. */
  lemma CompletionAnswer(flowId: string, read: Option<Flow>)
    ensures var token := Completed(flowId, read);
            && (token == Err(BadRequest) <==> flowId == "")
            && (token == Err(NotFound) <==> flowId != "" && read == None)
            && (token == Err(AlreadyCompleted) <==> flowId != "" && read.Some? && read.value.completed)
  {
  }
}
