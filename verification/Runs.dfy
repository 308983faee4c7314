/** Every chain is a run of the ledger, so what holds over whole runs holds over whole chains. */
module Runs {
  import opened Prelude
  import opened Checkpoints
  import opened Ledger
  import opened Lifecycle
  import opened Blocks
  import opened History
  import opened Agreement

  function TxEvents(txs: seq<Transaction>, now: U64): (r: seq<Event>)
    ensures |r| == |txs|
  {
    if txs == [] then [] else [TxAt(txs[0], now)] + TxEvents(txs[1..], now)
  }

  /** Block after block: an expiry pass at the parent's time, then the block's transactions. */
  function EventsOf(h: seq<Block>): seq<Event> {
    if |h| <= 1 then []
    else
      var now := h[|h| - 2].header.timestamp;
      EventsOf(h[..|h| - 1]) + ([GcAt(now)] + TxEvents(h[|h| - 1].transactions, now))
  }

  /** The ledger after a list of events, from any start. */
  ghost function Play(R: Rules, l: Ledger, events: seq<Event>): Ledger
    decreases |events|
  {
    if events == [] then l else Play(R, After(R, l, events[0]), events[1..])
  }

  lemma {:induction false} PlayConcat(R: Rules, l: Ledger, a: seq<Event>, b: seq<Event>)
    ensures Play(R, l, a + b) == Play(R, Play(R, l, a), b)
    decreases |a|
  {
    hide After;
    if a == [] {
      assert a + b == b;
    } else {
      assert (a + b)[1..] == a[1..] + b;
      PlayConcat(R, After(R, l, a[0]), a[1..], b);
    }
  }

  lemma {:induction false} StateIsPlay(R: Rules, events: seq<Event>, i: nat)
    requires i <= |events|
    ensures State(R, events, i) == Play(R, EMPTY, events[..i])
  {
    hide After;
    if i > 0 {
      StateIsPlay(R, events, i - 1);
      PlayConcat(R, EMPTY, events[..i - 1], [events[i - 1]]);
      assert events[..i] == events[..i - 1] + [events[i - 1]];
      var l := Play(R, EMPTY, events[..i - 1]);
      assert Play(R, l, [events[i - 1]]) == Play(R, After(R, l, events[i - 1]), []) by {
        assert [events[i - 1]][1..] == [];
      }
    }
  }

  lemma {:induction false} BlockIsPlay(R: Rules, l: Ledger, txs: seq<Transaction>, now: U64)
    requires StepAll(R, l, txs, now).error == None
    ensures Play(R, l, TxEvents(txs, now)) == StepAll(R, l, txs, now).ledger
    decreases |txs|
  {
    hide Step;
    if txs != [] {
      var es := TxEvents(txs, now);
      assert es[0] == TxAt(txs[0], now) && es[1..] == TxEvents(txs[1..], now);
      BlockIsPlay(R, Step(R, l, txs[0], now).ledger, txs[1..], now);
    }
  }

  /** The ledger of a chain is the last state of its run. */
  lemma {:induction false} ChainIsRun(N: Network, h: seq<Block>)
    requires h != [] && Applies(N, h)
    ensures LedgerAt(N, h) == State(N.rules, EventsOf(h), |EventsOf(h)|)
    decreases |h|
  {
    hide State, Play, After, StepAll, Gc, TxEvents, LedgerAt, Applies;
    var events := EventsOf(h);
    StateIsPlay(N.rules, events, |events|);
    assert events[..|events|] == events;
    if |h| == 1 {
      OnlyGenesis(N, h);
    } else {
      var front, earlier := h[..|h| - 1], EventsOf(h[..|h| - 1]);
      AppliesPrefix(N, h, |h| - 1);
      ChainIsRun(N, front);
      StateIsPlay(N.rules, earlier, |earlier|);
      assert earlier[..|earlier|] == earlier;
      var now := h[|h| - 2].header.timestamp;
      PlayConcat(N.rules, EMPTY, earlier, [GcAt(now)] + TxEvents(h[|h| - 1].transactions, now));
      LastBlockIsPlay(N, h);
    }
  }

  lemma OnlyGenesis(N: Network, h: seq<Block>)
    requires |h| == 1
    ensures LedgerAt(N, h) == EMPTY == Play(N.rules, EMPTY, [])
  {
  }

  lemma LastBlockIsPlay(N: Network, h: seq<Block>)
    requires |h| > 1 && Applies(N, h)
    ensures var (front, now) := (h[..|h| - 1], h[|h| - 2].header.timestamp);
            Play(N.rules, LedgerAt(N, front), [GcAt(now)] + TxEvents(h[|h| - 1].transactions, now)) == LedgerAt(N, h)
  {
    hide StepAll, Gc, Play, TxEvents, LedgerAt;
    var front, b := h[..|h| - 1], h[|h| - 1];
    assert AppliesAt(N, h, |h| - 1);
    var l, now := LedgerAt(N, front), TipOf(front).header.timestamp;
    BlockIsPlay(N.rules, Gc(l, now), b.transactions, now);
    PlayGc(N.rules, l, now, TxEvents(b.transactions, now));
    LedgerStep(N, front, b);
    assert front + [b] == h;
  }

  lemma PlayGc(R: Rules, l: Ledger, now: U64, rest: seq<Event>)
    ensures Play(R, l, [GcAt(now)] + rest) == Play(R, Gc(l, now), rest)
  {
    hide Gc;
    assert ([GcAt(now)] + rest)[1..] == rest;
  }

  /** A key used only through the guard is never banned, whatever evidence is offered against it. */
  lemma {:induction false} GuardedKeyIsNeverBanned(R: Rules, events: seq<Event>, i: nat, validKey: PublicKey -> bool,
      life: Life, key: PublicKey)
    requires i <= |events| && OnlyThroughGuard(R.crypto, validKey, life, key)
    requires forall e :: e in events && e.TxAt? && e.tx.body.Slash? ==>
               && HashNamesEpoch(R.crypto, life, key, e.tx.body.evidence.a)
               && HashNamesEpoch(R.crypto, life, key, e.tx.body.evidence.b)
    ensures key !in State(R, events, i).banned
  {
    hide After, OnlyThroughGuard, HashNamesEpoch, VerifyEvidence, InPool;
    if i > 0 {
      GuardedKeyIsNeverBanned(R, events, i - 1, validKey, life, key);
      var l, e := State(R, events, i - 1), events[i - 1];
      assert e in events;
      BanStep(R, l, e, key);
      if key in After(R, l, e).banned {
        GuardedKeyIsNeverConvicted(R.crypto, validKey, life, e.tx.body.evidence);
      }
    }
  }
}
