/** Admission of signals by two servers (pvfss/src/admission.cc). */
module Admission {
  import opened Bits
  import opened Memory

  datatype Decision = Accept | RejectInvalidRequest | RejectDuplicateSignalId
                    | RejectPeerPrecheck | RejectProofMismatch

  /** What evaluating a key share on a list of inputs gives. */
  datatype Evaluation = Evaluation(outputs: seq<nat>, proof: seq<Byte>)

  /** The verifiable point function behind a server: which key shares it takes (the others
      make it throw), and what it evaluates to. */
  datatype Evaluator = Evaluator(takes: seq<Byte> -> bool, verEval: (nat, seq<Byte>, seq<nat>) -> Evaluation)

  datatype Record = Record(signalId: nat, ready: bool, precheck: Decision, proof: seq<Byte>,
                           outputs: seq<nat>, keyShare: seq<Byte>)

  /** Records are made by Prepare only, which sets the two fields together. */
  ghost predicate WellMade(r: Record) {
    r.ready <==> r.precheck == Accept
  }

  datatype Message = Message(signalId: nat, ready: bool, proof: seq<Byte>)

  function MessageOf(r: Record): Message {
    Message(r.signalId, r.ready, r.proof)
  }

  /** A record belongs to the server that prepared it. */
  datatype Prepared = Prepared(owner: AdmissionServer, record: Record)

  ghost predicate Distinct(xs: seq<nat>) {
    forall i, j :: 0 <= i < j < |xs| ==> xs[i] != xs[j]
  }

  method HasDistinctInputs(inputs: seq<nat>) returns (distinct: bool)
    ensures distinct <==> Distinct(inputs)
  {
    var seen := {};
    for i := 0 to |inputs|
      invariant seen == set k | 0 <= k < i :: inputs[k]
      invariant Distinct(inputs[..i])
    {
      if inputs[i] in seen {
        return false;
      }
      seen := seen + {inputs[i]};
      assert inputs[..i + 1] == inputs[..i] + [inputs[i]];
    }
    assert inputs[..|inputs|] == inputs;
    distinct := true;
  }

  /** A submission is ready exactly when its id is new, its inputs are distinct and not empty,
      and the evaluator takes the key share. */
  ghost predicate Ready(keys: map<nat, seq<Byte>>, ev: Evaluator, id: nat, key: seq<Byte>, inputs: seq<nat>) {
    id !in keys && inputs != [] && Distinct(inputs) && ev.takes(key)
  }

  /** What preparing a submission records. */
  ghost predicate PrepareGives(keys: map<nat, seq<Byte>>, ev: Evaluator, party: nat, id: nat, key: seq<Byte>,
                               inputs: seq<nat>, r: Record)
  {
    && r.signalId == id && WellMade(r)
    && (r.ready <==> Ready(keys, ev, id, key, inputs))
    && (r.ready ==>
      && r.precheck == Accept && r.keyShare == key
      && r.outputs == ev.verEval(party, key, inputs).outputs
      && r.proof == ev.verEval(party, key, inputs).proof)
    && (!r.ready ==>
      && r.precheck == (if id in keys then RejectDuplicateSignalId else RejectInvalidRequest)
      && r.proof == Zeros(32) && r.outputs == [] && r.keyShare == [])
  }

  /** The verdict on a prepared submission and the peer's message. */
  function Verdict(keys: map<nat, seq<Byte>>, r: Record, peer: Message): Decision {
    if !r.ready then r.precheck
    else if !peer.ready || peer.signalId != r.signalId then RejectPeerPrecheck
    else if r.signalId in keys then RejectDuplicateSignalId
    else if r.proof != peer.proof then RejectProofMismatch
    else Accept
  }

  class AdmissionServer {
    const party: nat
    const evaluator: Evaluator
    var verifiedKeys: map<nat, seq<Byte>>

    constructor (party: nat, evaluator: Evaluator)
      requires party <= 1
      ensures this.party == party && this.evaluator == evaluator && verifiedKeys == map[]
    {
      this.party, this.evaluator := party, evaluator;
      verifiedKeys := map[];
    }

    predicate Contains(id: nat)
      reads this
    {
      id in verifiedKeys
    }

    /** Leaves the server as it was. */
    method Prepare(id: nat, key: seq<Byte>, inputs: seq<nat>) returns (p: Prepared)
      ensures p.owner == this
      ensures PrepareGives(verifiedKeys, evaluator, party, id, key, inputs, p.record)
    {
      if Contains(id) {
        return Prepared(this, Record(id, false, RejectDuplicateSignalId, Zeros(32), [], []));
      }
      var distinct := false;
      if |inputs| != 0 {
        distinct := HasDistinctInputs(inputs);
      }
      if !distinct || !evaluator.takes(key) {
        return Prepared(this, Record(id, false, RejectInvalidRequest, Zeros(32), [], []));
      }
      var evaluation := evaluator.verEval(party, key, inputs);
      p := Prepared(this, Record(id, true, Accept, evaluation.proof, evaluation.outputs, key));
    }

    /** Stores the key share exactly when it accepts; nothing else changes. */
    method Finalize(p: Prepared, peer: Message) returns (decision: Decision)
      requires WellMade(p.record)
      modifies this`verifiedKeys
      ensures decision == if p.owner != this then RejectInvalidRequest
                          else Verdict(old(verifiedKeys), p.record, peer)
      ensures p.owner == this && p.record.ready ==>
        && (decision == RejectPeerPrecheck <==> !peer.ready || peer.signalId != p.record.signalId)
        && (decision == RejectDuplicateSignalId <==>
             peer.ready && peer.signalId == p.record.signalId && p.record.signalId in old(verifiedKeys))
        && (decision == RejectProofMismatch <==>
             && peer.ready && peer.signalId == p.record.signalId
             && p.record.signalId !in old(verifiedKeys) && p.record.proof != peer.proof)
        && (decision == Accept <==>
             && peer.ready && peer.signalId == p.record.signalId
             && p.record.signalId !in old(verifiedKeys) && p.record.proof == peer.proof)
      ensures p.owner != this ==> decision == RejectInvalidRequest
      ensures p.owner == this && !p.record.ready ==> decision == p.record.precheck
      ensures verifiedKeys == if decision == Accept then old(verifiedKeys)[p.record.signalId := p.record.keyShare]
                              else old(verifiedKeys)
    {
      if p.owner != this {
        return RejectInvalidRequest;
      }
      if !p.record.ready {
        return p.record.precheck;
      }
      if !peer.ready || peer.signalId != p.record.signalId {
        return RejectPeerPrecheck;
      }
      if Contains(p.record.signalId) {
        return RejectDuplicateSignalId;
      }
      if p.record.proof != peer.proof {
        return RejectProofMismatch;
      }
      verifiedKeys := verifiedKeys[p.record.signalId := p.record.keyShare];
      decision := Accept;
    }
  }

  // ---------- two servers ----------

  /** What both servers look for in an exchange. */
  ghost predicate Admissible(keys: map<nat, seq<Byte>>, r0: Record, r1: Record) {
    r0.ready && r1.ready && r0.signalId == r1.signalId && r0.signalId !in keys && r0.proof == r1.proof
  }

  /** On equal id sets the two verdicts on an exchange accept together, and exactly when the
      exchange is admissible. */
  lemma VerdictsAgree(keys0: map<nat, seq<Byte>>, keys1: map<nat, seq<Byte>>, r0: Record, r1: Record)
    requires WellMade(r0) && WellMade(r1) && keys0.Keys == keys1.Keys
    ensures Verdict(keys0, r0, MessageOf(r1)) == Accept <==> Admissible(keys0, r0, r1)
    ensures Verdict(keys1, r1, MessageOf(r0)) == Accept <==> Admissible(keys0, r0, r1)
  {
    assert forall id :: id in keys0 <==> id in keys0.Keys;
    assert forall id :: id in keys1 <==> id in keys1.Keys;
  }

  /** For a submission that is otherwise in order, the verdicts accept together if and only if
      the servers agree on whether its id is stored. */
  lemma VerdictsAgreeIff(keys0: map<nat, seq<Byte>>, keys1: map<nat, seq<Byte>>, r0: Record, r1: Record)
    requires r0.ready && r1.ready && r0.signalId == r1.signalId && r0.proof == r1.proof
    ensures (Verdict(keys0, r0, MessageOf(r1)) == Accept <==> Verdict(keys1, r1, MessageOf(r0)) == Accept)
      <==> (r0.signalId in keys0 <==> r0.signalId in keys1)
  {
    assert Verdict(keys0, r0, MessageOf(r1)) == Accept <==> r0.signalId !in keys0;
  }

  datatype Admitted = Admitted(r0: Record, r1: Record)

  /** The stores after a run, given the stores before it and the exchanges it admitted. */
  ghost predicate Explained(before0: map<nat, seq<Byte>>, before1: map<nat, seq<Byte>>,
                            keys0: map<nat, seq<Byte>>, keys1: map<nat, seq<Byte>>, log: seq<Admitted>) {
    && before0.Keys == before1.Keys && keys0.Keys == keys1.Keys
    && |keys0.Keys| == |before0.Keys| + |log|
    && Kept(before0, keys0) && Kept(before1, keys1)
    && NewKeysLogged(before0, keys0, keys1, log)
    && LogStored(keys0, keys1, log)
  }

  ghost predicate Kept(before: map<nat, seq<Byte>>, keys: map<nat, seq<Byte>>) {
    forall id :: id in before ==> id in keys && keys[id] == before[id]
  }

  ghost predicate NewKeysLogged(before0: map<nat, seq<Byte>>, keys0: map<nat, seq<Byte>>,
                                keys1: map<nat, seq<Byte>>, log: seq<Admitted>) {
    forall id :: id in keys0 && id !in before0 ==> exists k :: 0 <= k < |log| && From(keys0, keys1, log[k], id)
  }

  ghost predicate LogStored(keys0: map<nat, seq<Byte>>, keys1: map<nat, seq<Byte>>, log: seq<Admitted>) {
    forall k :: 0 <= k < |log| ==> From(keys0, keys1, log[k], log[k].r0.signalId)
  }

  /** Both servers' keys of `id` come from the one admitted exchange. */
  ghost predicate From(keys0: map<nat, seq<Byte>>, keys1: map<nat, seq<Byte>>, a: Admitted, id: nat) {
    && a.r0.signalId == a.r1.signalId == id
    && a.r0.ready && a.r1.ready && a.r0.proof == a.r1.proof
    && id in keys0 && id in keys1
    && keys0[id] == a.r0.keyShare && keys1[id] == a.r1.keyShare
  }

  lemma FromKept(keys0: map<nat, seq<Byte>>, keys1: map<nat, seq<Byte>>, keys0': map<nat, seq<Byte>>,
                 keys1': map<nat, seq<Byte>>, a: Admitted, id: nat)
    requires From(keys0, keys1, a, id) && Kept(keys0, keys0') && Kept(keys1, keys1')
    ensures From(keys0', keys1', a, id)
  {
  }

  lemma KeptByNew(before: map<nat, seq<Byte>>, keys: map<nat, seq<Byte>>, id: nat, key: seq<Byte>)
    requires Kept(before, keys) && id !in keys
    ensures Kept(keys, keys[id := key]) && Kept(before, keys[id := key])
    ensures keys[id := key].Keys == keys.Keys + {id} && |keys[id := key].Keys| == |keys.Keys| + 1
  {
    assert keys[id := key].Keys == keys.Keys + {id};
  }

  lemma NewKeyLogged(before0: map<nat, seq<Byte>>, keys0: map<nat, seq<Byte>>, keys1: map<nat, seq<Byte>>,
                     keys0': map<nat, seq<Byte>>, keys1': map<nat, seq<Byte>>, log: seq<Admitted>, a: Admitted, id: nat)
    requires NewKeysLogged(before0, keys0, keys1, log) && Kept(keys0, keys0') && Kept(keys1, keys1')
    requires From(keys0', keys1', a, id) && forall x :: x in keys0' ==> x in keys0 || x == id
    ensures NewKeysLogged(before0, keys0', keys1', log + [a])
  {
    hide From;
    forall x | x in keys0' && x !in before0
      ensures exists k :: 0 <= k < |log + [a]| && From(keys0', keys1', (log + [a])[k], x)
    {
      if x == id {
        assert From(keys0', keys1', (log + [a])[|log|], x);
      } else {
        var k :| 0 <= k < |log| && From(keys0, keys1, log[k], x);
        FromKept(keys0, keys1, keys0', keys1', log[k], x);
        assert (log + [a])[k] == log[k];
      }
    }
  }

  lemma AdmitOne(before0: map<nat, seq<Byte>>, before1: map<nat, seq<Byte>>, keys0: map<nat, seq<Byte>>,
                 keys1: map<nat, seq<Byte>>, log: seq<Admitted>, a: Admitted)
    requires Explained(before0, before1, keys0, keys1, log) && Admissible(keys0, a.r0, a.r1)
    ensures var id := a.r0.signalId;
      Explained(before0, before1, keys0[id := a.r0.keyShare], keys1[id := a.r1.keyShare], log + [a])
  {
    hide Kept, NewKeysLogged;
    var id, log' := a.r0.signalId, log + [a];
    var keys0', keys1' := keys0[id := a.r0.keyShare], keys1[id := a.r1.keyShare];
    assert id !in keys1 by { assert id !in keys0.Keys; }
    KeptByNew(before0, keys0, id, a.r0.keyShare);
    KeptByNew(before1, keys1, id, a.r1.keyShare);
    assert From(keys0', keys1', a, id);
    NewKeyLogged(before0, keys0, keys1, keys0', keys1', log, a, id);
    forall k | 0 <= k < |log'| ensures From(keys0', keys1', log'[k], log'[k].r0.signalId) {
      if k < |log| {
        FromKept(keys0, keys1, keys0', keys1', log[k], log[k].r0.signalId);
      }
    }
  }

  lemma NothingAdmitted(keys0: map<nat, seq<Byte>>, keys1: map<nat, seq<Byte>>)
    requires keys0.Keys == keys1.Keys
    ensures Explained(keys0, keys1, keys0, keys1, [])
  {
    assert forall id :: id in keys0 <==> id in keys0.Keys;
    assert forall id :: id in keys1 <==> id in keys1.Keys;
  }

  // ---------- what finalising a list of exchanges does to one server ----------

  function Mine(side: nat, e: Admitted): Record {
    if side == 0 then e.r0 else e.r1
  }

  function Theirs(side: nat, e: Admitted): Record {
    if side == 0 then e.r1 else e.r0
  }

  /** The verdict of server `side` on the last of the exchanges it finalises. */
  function LastVerdict(before: map<nat, seq<Byte>>, exchanges: seq<Admitted>, side: nat): Decision
    requires exchanges != []
    decreases |exchanges|, 0
  {
    var last := exchanges[|exchanges| - 1];
    Verdict(Store(before, exchanges[..|exchanges| - 1], side), Mine(side, last), MessageOf(Theirs(side, last)))
  }

  /** Its store afterwards. */
  function Store(before: map<nat, seq<Byte>>, exchanges: seq<Admitted>, side: nat): map<nat, seq<Byte>>
    decreases |exchanges|, 1
  {
    if exchanges == [] then before
    else
      var rest, mine := Store(before, exchanges[..|exchanges| - 1], side), Mine(side, exchanges[|exchanges| - 1]);
      if LastVerdict(before, exchanges, side) == Accept then rest[mine.signalId := mine.keyShare] else rest
  }

  /** All its verdicts. */
  function Verdicts(before: map<nat, seq<Byte>>, exchanges: seq<Admitted>, side: nat): (v: seq<Decision>)
    ensures |v| == |exchanges|
  {
    if exchanges == [] then []
    else Verdicts(before, exchanges[..|exchanges| - 1], side) + [LastVerdict(before, exchanges, side)]
  }

  /** The exchanges that server 0 accepts. */
  function Log(before: map<nat, seq<Byte>>, exchanges: seq<Admitted>): seq<Admitted> {
    if exchanges == [] then []
    else
      var rest := Log(before, exchanges[..|exchanges| - 1]);
      if LastVerdict(before, exchanges, 0) == Accept then rest + [exchanges[|exchanges| - 1]] else rest
  }

  /** One more exchange. */
  lemma NextExchange(before: map<nat, seq<Byte>>, exchanges: seq<Admitted>, e: Admitted, side: nat)
    ensures var keys := Store(before, exchanges, side);
      var v := Verdict(keys, Mine(side, e), MessageOf(Theirs(side, e)));
      && Store(before, exchanges + [e], side)
         == (if v == Accept then keys[Mine(side, e).signalId := Mine(side, e).keyShare] else keys)
      && Verdicts(before, exchanges + [e], side) == Verdicts(before, exchanges, side) + [v]
      && (side == 0 ==>
           Log(before, exchanges + [e]) == if v == Accept then Log(before, exchanges) + [e] else Log(before, exchanges))
  {
    hide Verdict;
    assert (exchanges + [e])[..|exchanges|] == exchanges;
  }

  lemma NoExchange(before: map<nat, seq<Byte>>, side: nat)
    ensures Store(before, [], side) == before && Verdicts(before, [], side) == [] && Log(before, []) == []
  {
  }

  ghost predicate AllWellMade(exchanges: seq<Admitted>) {
    forall k :: 0 <= k < |exchanges| ==> WellMade(exchanges[k].r0) && WellMade(exchanges[k].r1)
  }

  lemma AcceptedIsNew(keys: map<nat, seq<Byte>>, r: Record, peer: Message)
    requires WellMade(r)
    ensures Verdict(keys, r, peer) == Accept ==> r.signalId !in keys
  {
  }

  /** Finalising only ever adds keys. */
  lemma {:induction false} StoreKeeps(before: map<nat, seq<Byte>>, exchanges: seq<Admitted>, side: nat)
    requires AllWellMade(exchanges)
    ensures Kept(before, Store(before, exchanges, side))
  {
    hide Verdict, Store;
    if exchanges == [] {
      NoExchange(before, side);
    } else {
      var front, last := exchanges[..|exchanges| - 1], exchanges[|exchanges| - 1];
      assert exchanges == front + [last];
      StoreKeeps(before, front, side);
      NextExchange(before, front, last, side);
      AcceptedIsNew(Store(before, front, side), Mine(side, last), MessageOf(Theirs(side, last)));
    }
  }

  /** The two servers agree on the same exchanges in the same order: they accept the same ones,
      and their stores hold the same ids, each with both keys of its one accepted exchange. */
  lemma {:induction false} SameExchangesAgree(before0: map<nat, seq<Byte>>, before1: map<nat, seq<Byte>>,
                                              exchanges: seq<Admitted>)
    requires before0.Keys == before1.Keys && AllWellMade(exchanges)
    ensures Explained(before0, before1, Store(before0, exchanges, 0), Store(before1, exchanges, 1),
                      Log(before0, exchanges))
    ensures forall k :: 0 <= k < |exchanges| ==>
      (Verdicts(before0, exchanges, 0)[k] == Accept <==> Verdicts(before1, exchanges, 1)[k] == Accept)
  {
    hide Explained, Verdict, WellMade, Admissible, Store, Verdicts, Log;
    if exchanges == [] {
      NoExchange(before0, 0);
      NoExchange(before1, 1);
      NothingAdmitted(before0, before1);
    } else {
      var front, last := exchanges[..|exchanges| - 1], exchanges[|exchanges| - 1];
      var keys0, keys1, log := Store(before0, front, 0), Store(before1, front, 1), Log(before0, front);
      assert exchanges == front + [last];
      SameExchangesAgree(before0, before1, front);
      NextExchange(before0, front, last, 0);
      NextExchange(before1, front, last, 1);
      IdsEqual(before0, before1, keys0, keys1, log);
      VerdictsAgree(keys0, keys1, last.r0, last.r1);
      if Admissible(keys0, last.r0, last.r1) {
        AdmitOne(before0, before1, keys0, keys1, log, last);
        SameId(keys0, last.r0, last.r1);
      }
    }
  }

  // ---------- runs ----------

  /** What may happen: either server prepares a submission, or either server finalises one of
      its records with the message of one of the peer's. */
  datatype Event = Prepare0(id0: nat, key0: seq<Byte>, inputs0: seq<nat>)
                 | Prepare1(id1: nat, key1: seq<Byte>, inputs1: seq<nat>)
                 | Finalize0(i: nat, j: nat)
                 | Finalize1(i: nat, j: nat)

  datatype Pair = Pair(i: nat, j: nat)

  /** How many records a server has prepared in the first `n` events. */
  function PreparedBy(events: seq<Event>, n: nat, side: nat): nat
    requires n <= |events|
  {
    if n == 0 then 0
    else PreparedBy(events, n - 1, side)
         + if (side == 0 && events[n - 1].Prepare0?) || (side != 0 && events[n - 1].Prepare1?) then 1 else 0
  }

  /** Only prepared records are finalised and sent. */
  ghost predicate Possible(events: seq<Event>) {
    forall n :: 0 <= n < |events| && (events[n].Finalize0? || events[n].Finalize1?) ==>
      events[n].i < PreparedBy(events, n, 0) && events[n].j < PreparedBy(events, n, 1)
  }

  /** The pairs of records a server finalises in the first `n` events, in order. */
  function Finalised(events: seq<Event>, n: nat, side: nat): seq<Pair>
    requires n <= |events|
  {
    if n == 0 then []
    else
      Finalised(events, n - 1, side)
      + if (side == 0 && events[n - 1].Finalize0?) || (side != 0 && events[n - 1].Finalize1?)
        then [Pair(events[n - 1].i, events[n - 1].j)] else []
  }

  /** What the next event adds. */
  lemma NextEvent(events: seq<Event>, n: nat)
    requires n < |events|
    ensures var e := events[n];
      && PreparedBy(events, n + 1, 0) == PreparedBy(events, n, 0) + (if e.Prepare0? then 1 else 0)
      && PreparedBy(events, n + 1, 1) == PreparedBy(events, n, 1) + (if e.Prepare1? then 1 else 0)
      && Finalised(events, n + 1, 0)
         == (if e.Finalize0? then Finalised(events, n, 0) + [Pair(e.i, e.j)] else Finalised(events, n, 0))
      && Finalised(events, n + 1, 1)
         == (if e.Finalize1? then Finalised(events, n, 1) + [Pair(e.i, e.j)] else Finalised(events, n, 1))
  {
  }

  ghost predicate PairsInRange(pairs: seq<Pair>, m0: nat, m1: nat) {
    forall k :: 0 <= k < |pairs| ==> pairs[k].i < m0 && pairs[k].j < m1
  }

  /** The exchanges that pairs of record numbers stand for. */
  function Exchanges(records0: seq<Record>, records1: seq<Record>, pairs: seq<Pair>): (e: seq<Admitted>)
    requires PairsInRange(pairs, |records0|, |records1|)
    ensures |e| == |pairs|
  {
    seq(|pairs|, k requires 0 <= k < |pairs| => Admitted(records0[pairs[k].i], records1[pairs[k].j]))
  }

  /** Preparing more records leaves earlier exchanges what they were. */
  lemma ExchangesGrow(records0: seq<Record>, records1: seq<Record>, more0: seq<Record>, more1: seq<Record>,
                      pairs: seq<Pair>)
    requires PairsInRange(pairs, |records0|, |records1|)
    ensures PairsInRange(pairs, |records0 + more0|, |records1 + more1|)
    ensures Exchanges(records0 + more0, records1 + more1, pairs) == Exchanges(records0, records1, pairs)
  {
  }

  /** What a run has prepared so far. */
  ghost predicate PreparedSoFar(events: seq<Event>, n: nat, records0: seq<Record>, records1: seq<Record>)
    requires n <= |events|
  {
    && |records0| == PreparedBy(events, n, 0) && |records1| == PreparedBy(events, n, 1)
    && (forall k :: 0 <= k < |records0| ==> WellMade(records0[k]))
    && (forall k :: 0 <= k < |records1| ==> WellMade(records1[k]))
  }

  /** Where server `side` is: it has finalised its own pairs, in order. */
  ghost predicate Reached(before: map<nat, seq<Byte>>, records0: seq<Record>, records1: seq<Record>,
                          pairs: seq<Pair>, side: nat, keys: map<nat, seq<Byte>>, decisions: seq<Decision>)
  {
    && PairsInRange(pairs, |records0|, |records1|)
    && keys == Store(before, Exchanges(records0, records1, pairs), side)
    && decisions == Verdicts(before, Exchanges(records0, records1, pairs), side)
  }

  lemma ReachedGrows(before: map<nat, seq<Byte>>, records0: seq<Record>, records1: seq<Record>, more0: seq<Record>,
                     more1: seq<Record>, pairs: seq<Pair>, side: nat, keys: map<nat, seq<Byte>>,
                     decisions: seq<Decision>)
    requires Reached(before, records0, records1, pairs, side, keys, decisions)
    ensures Reached(before, records0 + more0, records1 + more1, pairs, side, keys, decisions)
  {
    hide Store, Verdicts, PairsInRange;
    ExchangesGrow(records0, records1, more0, more1, pairs);
  }

  lemma ReachedNext(before: map<nat, seq<Byte>>, records0: seq<Record>, records1: seq<Record>, pairs: seq<Pair>,
                    side: nat, keys: map<nat, seq<Byte>>, decisions: seq<Decision>, i: nat, j: nat)
    requires Reached(before, records0, records1, pairs, side, keys, decisions)
    requires i < |records0| && j < |records1|
    ensures var e := Admitted(records0[i], records1[j]);
      var mine := Mine(side, e);
      var v := Verdict(keys, mine, MessageOf(Theirs(side, e)));
      Reached(before, records0, records1, pairs + [Pair(i, j)], side,
              if v == Accept then keys[mine.signalId := mine.keyShare] else keys, decisions + [v])
  {
    hide Verdict, Store, Verdicts;
    var e := Admitted(records0[i], records1[j]);
    assert PairsInRange(pairs + [Pair(i, j)], |records0|, |records1|);
    assert Exchanges(records0, records1, pairs + [Pair(i, j)]) == Exchanges(records0, records1, pairs) + [e];
    NextExchange(before, Exchanges(records0, records1, pairs), e, side);
  }

  predicate IsPrepare(e: Event, side: nat) {
    if side == 0 then e.Prepare0? else e.Prepare1?
  }

  function IdOf(e: Event): nat
    requires e.Prepare0? || e.Prepare1?
  {
    if e.Prepare0? then e.id0 else e.id1
  }

  function KeyOf(e: Event): seq<Byte>
    requires e.Prepare0? || e.Prepare1?
  {
    if e.Prepare0? then e.key0 else e.key1
  }

  function InputsOf(e: Event): seq<nat>
    requires e.Prepare0? || e.Prepare1?
  {
    if e.Prepare0? then e.inputs0 else e.inputs1
  }

  /** Event `k` prepares a submission: what server `side` records is what preparing it on the keys it
      holds by then gives. */
  ghost predicate PreparedAt(before: map<nat, seq<Byte>>, ev: Evaluator, party: nat, records0: seq<Record>,
                             records1: seq<Record>, events: seq<Event>, k: nat, side: nat)
    requires k < |events| && IsPrepare(events[k], side)
  {
    var r, mine := PreparedBy(events, k, side), if side == 0 then records0 else records1;
    && r < |mine| && PairsInRange(Finalised(events, k, side), |records0|, |records1|)
    && PrepareGives(Store(before, Exchanges(records0, records1, Finalised(events, k, side)), side), ev, party,
                    IdOf(events[k]), KeyOf(events[k]), InputsOf(events[k]), mine[r])
  }

  ghost predicate History(before: map<nat, seq<Byte>>, ev: Evaluator, party: nat, records0: seq<Record>,
                          records1: seq<Record>, events: seq<Event>, n: nat, side: nat)
    requires n <= |events|
  {
    forall k :: 0 <= k < n && IsPrepare(events[k], side) ==>
      PreparedAt(before, ev, party, records0, records1, events, k, side)
  }

  lemma PreparedStays(before: map<nat, seq<Byte>>, ev: Evaluator, party: nat, records0: seq<Record>,
                      records1: seq<Record>, more0: seq<Record>, more1: seq<Record>, events: seq<Event>, k: nat,
                      side: nat)
    requires k < |events| && IsPrepare(events[k], side)
    requires PreparedAt(before, ev, party, records0, records1, events, k, side)
    ensures PreparedAt(before, ev, party, records0 + more0, records1 + more1, events, k, side)
  {
    hide Store, PrepareGives, PreparedBy, Finalised, PairsInRange;
    ExchangesGrow(records0, records1, more0, more1, Finalised(events, k, side));
  }

  /** The next event extends the history of server `side`. */
  lemma HistoryStep(before: map<nat, seq<Byte>>, ev: Evaluator, party: nat, records0: seq<Record>,
                    records1: seq<Record>, more0: seq<Record>, more1: seq<Record>, events: seq<Event>, n: nat,
                    side: nat, keys: map<nat, seq<Byte>>, decisions: seq<Decision>)
    requires n < |events| && History(before, ev, party, records0, records1, events, n, side)
    requires Reached(before, records0, records1, Finalised(events, n, side), side, keys, decisions)
    requires IsPrepare(events[n], side) ==>
      var r, mine := PreparedBy(events, n, side), if side == 0 then records0 + more0 else records1 + more1;
      && r < |mine|
      && PrepareGives(keys, ev, party, IdOf(events[n]), KeyOf(events[n]), InputsOf(events[n]), mine[r])
    ensures History(before, ev, party, records0 + more0, records1 + more1, events, n + 1, side)
  {
    hide Store, Verdicts, PrepareGives, PreparedBy, Finalised, PairsInRange, PreparedAt;
    forall k | 0 <= k < n + 1 && IsPrepare(events[k], side)
      ensures PreparedAt(before, ev, party, records0 + more0, records1 + more1, events, k, side)
    {
      if k < n {
        PreparedStays(before, ev, party, records0, records1, more0, more1, events, k, side);
      } else {
        PreparedNow(before, ev, party, records0, records1, more0, more1, events, n, side, keys, decisions);
      }
    }
  }

  lemma PreparedNow(before: map<nat, seq<Byte>>, ev: Evaluator, party: nat, records0: seq<Record>,
                    records1: seq<Record>, more0: seq<Record>, more1: seq<Record>, events: seq<Event>, n: nat,
                    side: nat, keys: map<nat, seq<Byte>>, decisions: seq<Decision>)
    requires n < |events| && IsPrepare(events[n], side)
    requires Reached(before, records0, records1, Finalised(events, n, side), side, keys, decisions)
    requires var r, mine := PreparedBy(events, n, side), if side == 0 then records0 + more0 else records1 + more1;
      && r < |mine|
      && PrepareGives(keys, ev, party, IdOf(events[n]), KeyOf(events[n]), InputsOf(events[n]), mine[r])
    ensures PreparedAt(before, ev, party, records0 + more0, records1 + more1, events, n, side)
  {
    hide Store, Verdicts, PrepareGives, PreparedBy, Finalised, PairsInRange;
    ExchangesGrow(records0, records1, more0, more1, Finalised(events, n, side));
  }

  /** Every run, with preparations and finalisations of the two servers interleaved in any way.
      Each record is what preparing its submission gives at that time, and each server's decisions and
      keys are those of finalising its pairs in order.
      No stored key is ever replaced or dropped. When the servers start from equal id sets and
      finalise the same pairs in the same order, they accept the same ones, hold equal id sets,
      and an accepted id has both keys from its one admitted exchange. */
  method Run(s0: AdmissionServer, s1: AdmissionServer, events: seq<Event>)
    returns (decisions0: seq<Decision>, decisions1: seq<Decision>, ghost log: seq<Admitted>,
             records0: seq<Record>, records1: seq<Record>)
    requires s0 != s1 && Possible(events)
    modifies s0`verifiedKeys, s1`verifiedKeys
    ensures |decisions0| == |Finalised(events, |events|, 0)| && |decisions1| == |Finalised(events, |events|, 1)|
    ensures History(old(s0.verifiedKeys), s0.evaluator, s0.party, records0, records1, events, |events|, 0)
    ensures History(old(s1.verifiedKeys), s1.evaluator, s1.party, records0, records1, events, |events|, 1)
    ensures |records0| == PreparedBy(events, |events|, 0) && |records1| == PreparedBy(events, |events|, 1)
    ensures Reached(old(s0.verifiedKeys), records0, records1, Finalised(events, |events|, 0), 0, s0.verifiedKeys,
                    decisions0)
    ensures Reached(old(s1.verifiedKeys), records0, records1, Finalised(events, |events|, 1), 1, s1.verifiedKeys,
                    decisions1)
    ensures Kept(old(s0.verifiedKeys), s0.verifiedKeys) && Kept(old(s1.verifiedKeys), s1.verifiedKeys)
    ensures
      && old(s0.verifiedKeys).Keys == old(s1.verifiedKeys).Keys
      && Finalised(events, |events|, 0) == Finalised(events, |events|, 1) ==>
        && (forall k :: 0 <= k < |decisions0| ==> (decisions0[k] == Accept <==> decisions1[k] == Accept))
        && Explained(old(s0.verifiedKeys), old(s1.verifiedKeys), s0.verifiedKeys, s1.verifiedKeys, log)
  {
    hide Explained, Verdict, Ready, Kept, Store, Verdicts, PairsInRange, Reached, WellMade, PreparedBy, Finalised,
         History, PrepareGives, IdOf, KeyOf, InputsOf;
    decisions0, decisions1, log := [], [], [];
    ghost var before0, before1 := s0.verifiedKeys, s1.verifiedKeys;
    records0, records1 := [], [];
    NothingReached(before0, 0);
    NothingReached(before1, 1);
    NoEvent(events);
    NoHistory(before0, s0.evaluator, s0.party, events, 0);
    NoHistory(before1, s1.evaluator, s1.party, events, 1);
    for n := 0 to |events|
      invariant PreparedSoFar(events, n, records0, records1)
      invariant Reached(before0, records0, records1, Finalised(events, n, 0), 0, s0.verifiedKeys, decisions0)
      invariant Reached(before1, records0, records1, Finalised(events, n, 1), 1, s1.verifiedKeys, decisions1)
      invariant History(before0, s0.evaluator, s0.party, records0, records1, events, n, 0)
      invariant History(before1, s1.evaluator, s1.party, records0, records1, events, n, 1)
    {
      NextEvent(events, n);
      match events[n] {
        case Prepare0(id, key, inputs) =>
          var p := s0.Prepare(id, key, inputs);
          BothHistories(before0, before1, s0, s1, records0, records1, [p.record], [], events, n, decisions0,
                        decisions1);
          GrowBoth(before0, before1, records0, records1, [p.record], [], events, n, s0.verifiedKeys,
                   s1.verifiedKeys, decisions0, decisions1);
          records0 := records0 + [p.record];
        case Prepare1(id, key, inputs) =>
          var p := s1.Prepare(id, key, inputs);
          BothHistories(before0, before1, s0, s1, records0, records1, [], [p.record], events, n, decisions0,
                        decisions1);
          GrowBoth(before0, before1, records0, records1, [], [p.record], events, n, s0.verifiedKeys,
                   s1.verifiedKeys, decisions0, decisions1);
          records1 := records1 + [p.record];
        case Finalize0(i, j) =>
          BothHistories(before0, before1, s0, s1, records0, records1, [], [], events, n, decisions0, decisions1);
          ReachedNext(before0, records0, records1, Finalised(events, n, 0), 0, s0.verifiedKeys, decisions0, i, j);
          var d := s0.Finalize(Prepared(s0, records0[i]), MessageOf(records1[j]));
          decisions0 := decisions0 + [d];
        case Finalize1(i, j) =>
          BothHistories(before0, before1, s0, s1, records0, records1, [], [], events, n, decisions0, decisions1);
          ReachedNext(before1, records0, records1, Finalised(events, n, 1), 1, s1.verifiedKeys, decisions1, i, j);
          var d := s1.Finalize(Prepared(s1, records1[j]), MessageOf(records0[i]));
          decisions1 := decisions1 + [d];
      }
    }
    log := RunEnd(before0, before1, records0, records1, Finalised(events, |events|, 0),
                  Finalised(events, |events|, 1), s0.verifiedKeys, s1.verifiedKeys, decisions0, decisions1);
  }

  lemma NoEvent(events: seq<Event>)
    ensures PreparedBy(events, 0, 0) == PreparedBy(events, 0, 1) == 0
    ensures Finalised(events, 0, 0) == Finalised(events, 0, 1) == []
  {
  }

  lemma NoHistory(before: map<nat, seq<Byte>>, ev: Evaluator, party: nat, events: seq<Event>, side: nat)
    ensures History(before, ev, party, [], [], events, 0, side)
  {
  }

  /** The histories of both servers after the next event, which may have prepared a record. */
  lemma BothHistories(before0: map<nat, seq<Byte>>, before1: map<nat, seq<Byte>>, s0: AdmissionServer,
                      s1: AdmissionServer, records0: seq<Record>, records1: seq<Record>, more0: seq<Record>,
                      more1: seq<Record>, events: seq<Event>, n: nat, decisions0: seq<Decision>,
                      decisions1: seq<Decision>)
    requires n < |events|
    requires |records0| == PreparedBy(events, n, 0) && |records1| == PreparedBy(events, n, 1)
    requires History(before0, s0.evaluator, s0.party, records0, records1, events, n, 0)
    requires History(before1, s1.evaluator, s1.party, records0, records1, events, n, 1)
    requires Reached(before0, records0, records1, Finalised(events, n, 0), 0, s0.verifiedKeys, decisions0)
    requires Reached(before1, records0, records1, Finalised(events, n, 1), 1, s1.verifiedKeys, decisions1)
    requires events[n].Prepare0? ==>
      && |more0| == 1
      && PrepareGives(s0.verifiedKeys, s0.evaluator, s0.party, events[n].id0, events[n].key0, events[n].inputs0,
                      more0[0])
    requires events[n].Prepare1? ==>
      && |more1| == 1
      && PrepareGives(s1.verifiedKeys, s1.evaluator, s1.party, events[n].id1, events[n].key1, events[n].inputs1,
                      more1[0])
    ensures History(before0, s0.evaluator, s0.party, records0 + more0, records1 + more1, events, n + 1, 0)
    ensures History(before1, s1.evaluator, s1.party, records0 + more0, records1 + more1, events, n + 1, 1)
    ensures records0 + [] == records0 && records1 + [] == records1
  {
    hide History, Reached, PrepareGives, PreparedBy, Finalised;
    HistoryStep(before0, s0.evaluator, s0.party, records0, records1, more0, more1, events, n, 0, s0.verifiedKeys,
                decisions0);
    HistoryStep(before1, s1.evaluator, s1.party, records0, records1, more0, more1, events, n, 1, s1.verifiedKeys,
                decisions1);
  }

  lemma NothingReached(before: map<nat, seq<Byte>>, side: nat)
    ensures Reached(before, [], [], [], side, before, [])
  {
  }

  lemma GrowBoth(before0: map<nat, seq<Byte>>, before1: map<nat, seq<Byte>>, records0: seq<Record>,
                 records1: seq<Record>, more0: seq<Record>, more1: seq<Record>, events: seq<Event>, n: nat,
                 keys0: map<nat, seq<Byte>>, keys1: map<nat, seq<Byte>>,
                 decisions0: seq<Decision>, decisions1: seq<Decision>)
    requires n <= |events|
    requires Reached(before0, records0, records1, Finalised(events, n, 0), 0, keys0, decisions0)
    requires Reached(before1, records0, records1, Finalised(events, n, 1), 1, keys1, decisions1)
    ensures Reached(before0, records0 + more0, records1 + more1, Finalised(events, n, 0), 0, keys0, decisions0)
    ensures Reached(before1, records0 + more0, records1 + more1, Finalised(events, n, 1), 1, keys1, decisions1)
    ensures records0 + [] == records0 && records1 + [] == records1
  {
    hide Reached;
    ReachedGrows(before0, records0, records1, more0, more1, Finalised(events, n, 0), 0, keys0, decisions0);
    ReachedGrows(before1, records0, records1, more0, more1, Finalised(events, n, 1), 1, keys1, decisions1);
  }

  lemma RunEnd(before0: map<nat, seq<Byte>>, before1: map<nat, seq<Byte>>, records0: seq<Record>,
               records1: seq<Record>, pairs0: seq<Pair>, pairs1: seq<Pair>, keys0: map<nat, seq<Byte>>,
               keys1: map<nat, seq<Byte>>, decisions0: seq<Decision>, decisions1: seq<Decision>)
    returns (log: seq<Admitted>)
    requires forall k :: 0 <= k < |records0| ==> WellMade(records0[k])
    requires forall k :: 0 <= k < |records1| ==> WellMade(records1[k])
    requires Reached(before0, records0, records1, pairs0, 0, keys0, decisions0)
    requires Reached(before1, records0, records1, pairs1, 1, keys1, decisions1)
    ensures |decisions0| == |pairs0| && |decisions1| == |pairs1|
    ensures Kept(before0, keys0) && Kept(before1, keys1)
    ensures before0.Keys == before1.Keys && pairs0 == pairs1 ==>
      && (forall k :: 0 <= k < |decisions0| ==> (decisions0[k] == Accept <==> decisions1[k] == Accept))
      && Explained(before0, before1, keys0, keys1, log)
  {
    hide Explained, Kept, Store, Verdicts, Log, WellMade;
    log := [];
    var exchanges0, exchanges1 := Exchanges(records0, records1, pairs0), Exchanges(records0, records1, pairs1);
    StoreKeeps(before0, exchanges0, 0);
    StoreKeeps(before1, exchanges1, 1);
    if before0.Keys == before1.Keys && pairs0 == pairs1 {
      SameExchangesAgree(before0, before1, exchanges0);
      log := Log(before0, exchanges0);
    }
  }

  lemma IdsEqual(before0: map<nat, seq<Byte>>, before1: map<nat, seq<Byte>>, keys0: map<nat, seq<Byte>>,
                 keys1: map<nat, seq<Byte>>, log: seq<Admitted>)
    requires Explained(before0, before1, keys0, keys1, log)
    ensures keys0.Keys == keys1.Keys
  {
  }

  lemma SameId(keys: map<nat, seq<Byte>>, r0: Record, r1: Record)
    requires Admissible(keys, r0, r1)
    ensures r0.signalId == r1.signalId
  {
  }
}
