/** A signature scheme that meets the laws of aggregation while it refuses, as the library does, an empty list,
    a wrong length and a repeated signature; and the split timeout round played out in it. */
module HotStuffSignatures {
  import opened Types
  import opened Validators
  import opened HotStuffModel
  import opened HotStuffTimeouts

  // ---------------------------------------------------------------- the scheme

  const KEY: nat := 48
  const SIGNATURE: nat := 96

  function Joined(list: seq<string>): string {
    if list == [] then "" else list[0] + Joined(list[1..])
  }

  predicate Lengths(list: seq<string>, n: nat) {
    forall i :: 0 <= i < |list| ==> |list[i]| == n
  }

  predicate Repeats(list: seq<string>) {
    exists i, j :: 0 <= i < j < |list| && list[i] == list[j]
  }

  function Stamp(mark: Message -> char, msg: Message): string {
    seq(SIGNATURE - KEY, i => mark(msg))
  }

  /** Every key in a chain of keys, each followed by the mark of the message. */
  function SignAll(mark: Message -> char, keys: string, msg: Message): string
    decreases |keys|
  {
    if |keys| < KEY then "" else keys[..KEY] + Stamp(mark, msg) + SignAll(mark, keys[KEY..], msg)
  }

  function Scheme(mark: Message -> char): Bls {
    Bls((key, msg) => SignAll(mark, key, msg),
        (key, msg, signature) => Some(signature == SignAll(mark, key, msg)),
        list => if list == [] || !Lengths(list, SIGNATURE) || Repeats(list) then None else Some(Joined(list)),
        list => if list == [] || !Lengths(list, KEY) then None else Some(Joined(list)))
  }

  // ---------------------------------------------------------------- it meets the laws

  lemma {:induction false} SingleSignature(mark: Message -> char, key: string, msg: Message)
    requires |key| == KEY
    ensures SignAll(mark, key, msg) == key + Stamp(mark, msg)
  {
    assert key[..KEY] == key && SignAll(mark, key[KEY..], msg) == "";
  }

  lemma {:induction false} ChainSignature(mark: Message -> char, key: string, rest: string, msg: Message)
    requires |key| == KEY
    ensures SignAll(mark, key + rest, msg) == key + Stamp(mark, msg) + SignAll(mark, rest, msg)
  {
    assert (key + rest)[..KEY] == key && (key + rest)[KEY..] == rest;
  }

  /** The joined signatures sign the joined keys exactly when all messages carry the mark of the checked one. */
  lemma {:induction false} JoinedVerifiesIff(mark: Message -> char, keys: seq<string>, msgs: seq<Message>,
                                             sigs: seq<string>, msg: Message)
    requires |keys| == |msgs| == |sigs| && Lengths(keys, KEY)
    requires forall i :: 0 <= i < |keys| ==> sigs[i] == SignAll(mark, keys[i], msgs[i])
    ensures Joined(sigs) == SignAll(mark, Joined(keys), msg)
            <==> forall i :: 0 <= i < |msgs| ==> mark(msgs[i]) == mark(msg)
    decreases |keys|
  {
    if keys != [] {
      var key, first, rest := keys[0], Stamp(mark, msgs[0]), Joined(sigs[1..]);
      var other := SignAll(mark, Joined(keys[1..]), msg);
      SingleSignature(mark, key, msgs[0]);
      ChainSignature(mark, key, Joined(keys[1..]), msg);
      JoinedVerifiesIff(mark, keys[1..], msgs[1..], sigs[1..], msg);
      SamePieces(key + first, rest, key + Stamp(mark, msg), other);
      SamePieces(key, first, key, Stamp(mark, msg));
      assert first == Stamp(mark, msg) <==> first[0] == Stamp(mark, msg)[0];
      assert msgs == [msgs[0]] + msgs[1..];
    }
  }

  lemma {:induction false} SamePieces(a: string, b: string, c: string, d: string)
    requires |a| == |c|
    ensures a + b == c + d <==> a == c && b == d
  {
    if a + b == c + d {
      assert a == (a + b)[..|a|] && c == (c + d)[..|a|] && b == (a + b)[|a|..] && d == (c + d)[|a|..];
    }
  }

  /** SATISFIABLE. The laws hold together, for any members and any messages with distinct marks. */
  lemma {:induction false} SchemeMeetsLaws(mark: Message -> char, m: Members, messages: set<Message>)
    requires forall x, y :: x in messages && y in messages && mark(x) == mark(y) ==> x == y
    ensures AggregationComplete(Scheme(mark), m) && AggregationBinding(Scheme(mark), m, messages)
  {
    var bls := Scheme(mark);
    forall signers, msgs, sigs | Aggregated(bls, m, signers, msgs, sigs)
      ensures forall msg :: AggregateVerifies(bls, m, signers, sigs, msg)
                            <==> forall i :: 0 <= i < |msgs| ==> mark(msgs[i]) == mark(msg)
    {
      forall msg
        ensures AggregateVerifies(bls, m, signers, sigs, msg)
                <==> forall i :: 0 <= i < |msgs| ==> mark(msgs[i]) == mark(msg)
      {
        JoinedVerifiesIff(mark, KeysOf(m, signers), msgs, sigs, msg);
      }
    }
  }

  // ---------------------------------------------------------------- a split round

  /** An honest timeout vote in the scheme. */
  function Timeout(mark: Message -> char, a: Address, key: string, info: ValidatorInfo, round: u64, qcSlot: u64,
                   qcHash: H256): TimeoutVote {
    TimeoutVote(round, a, info.pubkey, info.stake, qcSlot, qcHash,
                SignAll(mark, key, TimeoutMessage(round, qcSlot, qcHash)))
  }

  /** It happens: two members of equal stake time out honestly, one having seen a later certificate than the other.
      The round is certified and every node with the same members refuses the certificate. */
  lemma {:induction false} SplitTimeoutsHappen(a: Address, b: Address, stake: u128, round: u64, low: u64, high: u64,
                                               hash: H256)
    returns (bls: Bls, m: Members, x: TimeoutVote, y: TimeoutVote)
    requires a != b && 0 < stake <= U128_MAX / 2 && low < high
    ensures m.validators.Keys == {a, b} && x.round == y.round == round && x.qcSlot == low && y.qcSlot == high
    ensures TimeoutVerifies(bls, m, x) && TimeoutVerifies(bls, m, y)
    ensures var reply := OnTimeoutVote(bls, Run(bls, true, Fresh(m), [TimedOut(x)]), y).1;
            reply.Certified? && forall n :: SameMembers(m, n) ==> !CertificateVerifies(bls, n, reply.tc)
  {
    var info := ValidatorInfo(PublicKey(""), stake);
    var ka, kb := seq(KEY, i => 'a'), seq(KEY, i => 'b');
    var mark := (msg: Message) =>
      if msg.TimeoutMessage? && msg.qcSlot == high then 'h' else if msg == TimeoutMessage(round, 0, ZERO_HASH)
          then 'z' else 'l';
    bls := Scheme(mark);
    m := Members(map[a := info, b := info], 2 * stake, map[a := ka, b := kb], None);
    x, y := Timeout(mark, a, ka, info, round, low, hash), Timeout(mark, b, kb, info, round, high, hash);
    SingleSignature(mark, ka, TimeoutMessage(round, low, hash));
    SingleSignature(mark, kb, TimeoutMessage(round, high, hash));
    assert x.signature[0] == 'a' && y.signature[0] == 'b';
    SchemeMeetsLaws(mark, m, InPlay(round, [x, y]));
    forall n | SameMembers(m, n)
      ensures var reply := OnTimeoutVote(bls, Run(bls, true, Fresh(m), [TimedOut(x)]), y).1;
              reply.Certified? && !CertificateVerifies(bls, n, reply.tc)
    {
      SplitTimeoutsAreRefused(bls, m, x, y, n);
    }
    assert SameMembers(m, m);
  }
}
