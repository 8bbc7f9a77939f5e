/** Which queued messages a history of dispatch rounds sends, and how often. */
module Ledger {
  import opened Chat

  /** Messages taken off the queue in all rounds. A round lists them newest first. */
  function Drained(rounds: seq<seq<Message>>): nat {
    if rounds == [] then 0 else Drained(rounds[..|rounds| - 1]) + |rounds[|rounds| - 1]|
  }

  /** What a round sends: its newest message, as many times as it has messages. */
  function RoundLog(r: seq<Message>): seq<Message> {
    if r == [] then [] else Repeat(|r|, [r[0]])
  }

  function Log(rounds: seq<seq<Message>>): seq<Message> {
    if rounds == [] then [] else Log(rounds[..|rounds| - 1]) + RoundLog(rounds[|rounds| - 1])
  }

  /** Every message knows its place in the order of posting. */
  predicate Numbered(posted: seq<Message>) {
    forall i :: 0 <= i < |posted| ==> posted[i].serial == i
  }

  /** `r` is, newest first, the stretch of posted messages that ends before place `end`. */
  predicate Stretch(posted: seq<Message>, r: seq<Message>, end: nat) {
    |r| <= end <= |posted| && forall i :: 0 <= i < |r| ==> r[i] == posted[end - 1 - i]
  }

  /** The rounds, each reversed, spell the messages in the order they were posted. */
  predicate InOrder(posted: seq<Message>, rounds: seq<seq<Message>>) {
    rounds == [] ||
    (Stretch(posted, rounds[|rounds| - 1], Drained(rounds)) && InOrder(posted, rounds[..|rounds| - 1]))
  }

  /** How often the rounds send the `s`-th posted message. */
  function Copies(rounds: seq<seq<Message>>, s: nat): nat {
    var d := Drained(rounds);
    if rounds == [] || s >= d then 0
    else
      var r := rounds[|rounds| - 1];
      if s >= d - |r| then (if s == d - 1 then |r| else 0) else Copies(rounds[..|rounds| - 1], s)
  }

  lemma {:induction false} RepeatCount(n: nat, x: Message, y: Message)
    ensures multiset(Repeat(n, [x]))[y] == if x == y then n else 0
  {
    if n > 0 {
      RepeatCount(n - 1, x, y);
    }
  }

  lemma {:induction false} InOrderGrows(posted: seq<Message>, rounds: seq<seq<Message>>, m: Message)
    requires InOrder(posted, rounds)
    ensures InOrder(posted + [m], rounds)
  {
    if rounds != [] {
      InOrderGrows(posted, rounds[..|rounds| - 1], m);
    }
  }

  lemma RoundAppended(posted: seq<Message>, rounds: seq<seq<Message>>, r: seq<Message>)
    ensures Drained(rounds + [r]) == Drained(rounds) + |r|
    ensures Log(rounds + [r]) == Log(rounds) + RoundLog(r)
    ensures InOrder(posted, rounds + [r]) <==> Stretch(posted, r, Drained(rounds) + |r|) && InOrder(posted, rounds)
  {
    var longer := rounds + [r];
    assert longer[..|longer| - 1] == rounds && longer[|longer| - 1] == r;
  }

  lemma StretchPlace(posted: seq<Message>, r: seq<Message>, end: nat, i: nat)
    requires Numbered(posted) && Stretch(posted, r, end) && i < |r|
    ensures r[i] == posted[end - 1 - i] && r[i].serial == end - 1 - i
  {
  }

  /** What one more round adds to the count of the `s`-th message. */
  lemma RoundAdds(posted: seq<Message>, r: seq<Message>, end: nat, s: nat)
    requires Numbered(posted) && Stretch(posted, r, end) && s < |posted|
    ensures multiset(RoundLog(r))[posted[s]] == if r != [] && s == end - 1 then |r| else 0
  {
    RoundLogCount(r, posted[s]);
    assert posted[s].serial == s;
    if r != [] {
      StretchPlace(posted, r, end, 0);
    }
  }

  lemma LogSplit(rounds: seq<seq<Message>>, m: Message)
    requires rounds != []
    ensures multiset(Log(rounds))[m] ==
            multiset(Log(rounds[..|rounds| - 1]))[m] + multiset(RoundLog(rounds[|rounds| - 1]))[m]
  {
  }

  lemma RoundLogCount(r: seq<Message>, m: Message)
    ensures multiset(RoundLog(r))[m] == if r != [] && r[0] == m then |r| else 0
  {
    if r != [] {
      RepeatCount(|r|, r[0], m);
    }
  }

  lemma {:induction false} LogCount(posted: seq<Message>, rounds: seq<seq<Message>>, s: nat)
    requires Numbered(posted) && InOrder(posted, rounds) && s < |posted|
    ensures multiset(Log(rounds))[posted[s]] == Copies(rounds, s)
  {
    if rounds != [] {
      LogCount(posted, rounds[..|rounds| - 1], s);
      LogSplit(rounds, posted[s]);
      RoundAdds(posted, rounds[|rounds| - 1], Drained(rounds), s);
      assert s >= Drained(rounds[..|rounds| - 1]) ==> Copies(rounds[..|rounds| - 1], s) == 0;
    }
  }

  /** Place of a drained message in the order of posting. */
  lemma {:induction false} RoundPlace(posted: seq<Message>, rounds: seq<seq<Message>>, j: nat, p: nat)
    requires Numbered(posted) && InOrder(posted, rounds) && j < |rounds| && p < |rounds[j]|
    ensures var s := rounds[j][p].serial;
            s < Drained(rounds) <= |posted| && posted[s] == rounds[j][p] &&
            Copies(rounds, s) == if p == 0 then |rounds[j]| else 0
  {
    var last := |rounds| - 1;
    if j == last {
      StretchPlace(posted, rounds[j], Drained(rounds), p);
    } else {
      RoundPlace(posted, rounds[..last], j, p);
    }
  }

  lemma CopiesEarlier(rounds: seq<seq<Message>>, s: nat)
    requires rounds != [] && s < Drained(rounds[..|rounds| - 1])
    ensures Copies(rounds, s) == Copies(rounds[..|rounds| - 1], s)
  {
  }

  predicate SentOnce(rounds: seq<seq<Message>>) {
    forall s :: 0 <= s < Drained(rounds) ==> Copies(rounds, s) == 1
  }

  predicate OneAtATime(rounds: seq<seq<Message>>) {
    forall r <- rounds :: |r| <= 1
  }

  lemma LastRound(rounds: seq<seq<Message>>)
    requires rounds != []
    ensures OneAtATime(rounds) <==> OneAtATime(rounds[..|rounds| - 1]) && |rounds[|rounds| - 1]| <= 1
  {
    assert rounds == rounds[..|rounds| - 1] + [rounds[|rounds| - 1]];
  }

  /** Every drained message is sent exactly once precisely when no round found more than one. */
  lemma {:induction false} OnceExactly(rounds: seq<seq<Message>>)
    ensures SentOnce(rounds) <==> OneAtATime(rounds)
  {
    if rounds != [] {
      var earlier, r := rounds[..|rounds| - 1], rounds[|rounds| - 1];
      LastRound(rounds);
      OnceExactly(earlier);
      forall s | 0 <= s < Drained(earlier) ensures Copies(rounds, s) == Copies(earlier, s) {
        CopiesEarlier(rounds, s);
      }
      if |r| > 1 {
        assert Copies(rounds, Drained(rounds) - 2) == 0;
      } else {
        assert |r| == 1 ==> Copies(rounds, Drained(rounds) - 1) == 1;
        assert SentOnce(rounds) <==> SentOnce(earlier);
      }
    }
  }
}
