/** The transport as the client sees it: each read or write gets an answer, and nothing is known of them beforehand. */
module Network {
  /** The answers in order: how many bytes could move, 0 for a time-out, less for a failure. */
  type Answers = nat -> int

  /** What a call returns that wants to move so many bytes, when so many are there. */
  function Given(answer: int, wanted: nat, there: nat): (ret: int)
    ensures -1 <= ret <= wanted && ret <= there
  {
    if answer < 0 then -1
    else if answer <= wanted && answer <= there then answer
    else if wanted <= there then wanted
    else there
  }

  /** All answers in this range move something. */
  predicate Came(net: Answers, from: nat, to: nat) {
    forall j :: from <= j < to ==> net(j) > 0
  }

  /** None of them is a failure. */
  predicate Unbroken(net: Answers, from: nat, to: nat) {
    forall j :: from <= j < to ==> net(j) >= 0
  }

  /** Answers up to here, and on to there. */
  lemma OnTo(net: Answers, from: nat, mid: nat, to: nat)
    requires from <= mid < to
    ensures Came(net, from, to) ==> Came(net, from, mid) && net(to - 1) > 0
    ensures Unbroken(net, from, mid) && Came(net, mid, to - 1) && net(to - 1) >= 0 ==> Unbroken(net, from, to)
  {
  }

  /** It went through if and only if each answer moved something; if not, the last one stopped it. */
  predicate Told(net: Answers, from: nat, to: nat, done: bool) {
    && from <= to && (done <==> Came(net, from, to))
    && (!done ==> from < to && Came(net, from, to - 1))
  }
}
