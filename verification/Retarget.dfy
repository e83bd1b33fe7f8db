/** When the difficulty moves, exactly: after every fifth block, by one, up when the last five blocks came within less
    than two seconds, down when they took more than ten. */
module Retarget {
  import opened Bytes
  import opened Crypto
  import opened Blocks
  import opened Mining
  import opened Ledger
  import opened ChainLaws

  /** The seconds between two timestamps, in 64 bits. */
  function Seconds(early: uint64, late: uint64): nat {
    (late - early) % 0x1_0000_0000_0000_0000
  }

  /** What follows of the last block, and of the one four before it. */
  lemma {:induction false} MovesExactlyWhen(chain: seq<Block>)
    requires |chain| >= 5 && chain[|chain| - 1].info.difficulty < 0xFFFF_FFFF
    ensures var last, next := chain[|chain| - 1].info, NextDifficulty(chain);
            var due := last.index > 0 && last.index % 5 == 0;
            var took := Seconds(chain[|chain| - 5].info.timestamp, last.timestamp);
            && (next == last.difficulty + 1 <==> due && took < 2)
            && (next == last.difficulty - 1 <==> due && took > 10 && last.difficulty > 0)
            && (next == last.difficulty <==> !due || 2 <= took <= 10 || (took > 10 && last.difficulty == 0))
  {
    assert ADJUSTMENT_INTERVAL * GENERATION_INTERVAL == 5;
  }

  /** A list too short to look back starts again at zero when it is due; without blocks there is nothing to adjust. */
  lemma {:induction false} ShortChains(chain: seq<Block>)
    requires |chain| < 5
    ensures chain == [] ==> NextDifficulty(chain) == 0
    ensures chain != [] ==>
              var last := chain[|chain| - 1].info;
              NextDifficulty(chain) == if last.index > 0 && last.index % 5 == 0 then 0 else last.difficulty
  {
  }

  /** On every chain a run builds: block n + 1 differs in difficulty from block n only when n is a positive multiple of
      five; then it is harder exactly when blocks n - 4 and n are less than two seconds apart, and easier exactly when
      they are more than ten apart and there is something to give up. */
  lemma {:induction false} RunMovesExactlyWhen(c: Suite, chain: seq<Block>, n: nat)
    requires ChainOk(c, chain) && n + 1 < |chain|
    ensures var now, next := chain[n].info.difficulty, chain[n + 1].info.difficulty;
            && (n == 0 || n % 5 != 0 ==> next == now)
            && (n > 0 && n % 5 == 0 ==>
                  var took := Seconds(chain[n - 4].info.timestamp, chain[n].info.timestamp);
                  && (next > now <==> took < 2) && (next == now + 1 <==> took < 2)
                  && (next < now <==> took > 10 && now > 0) && (next == now - 1 <==> took > 10 && now > 0))
  {
    var before := chain[..n + 1];
    assert Linked(c, chain, n + 1);
    assert before[n] == chain[n];
    IndexIs(c, chain, n);
    DifficultyIsSmall(c, chain, n);
    if n >= 4 {
      assert before[n - 4] == chain[n - 4];
      MovesExactlyWhen(before);
    } else {
      ShortChains(before);
    }
  }

  lemma {:induction false} DifficultyIsSmall(c: Suite, chain: seq<Block>, n: nat)
    requires ChainOk(c, chain) && n < |chain|
    ensures chain[n].info.difficulty < 0xFFFF_FFFF
  {
    if n > 0 {
      DifficultyBound(c, chain, n);
      SmallFifths(n - 1);
    }
  }

  /** Five blocks within a second make the sixth harder. */
  lemma {:induction false} FastBlocksAreHarder(c: Suite, chain: seq<Block>)
    requires ChainOk(c, chain) && |chain| == 7
    requires chain[5].info.timestamp == chain[1].info.timestamp
    ensures chain[5].info.difficulty == 0 && chain[6].info.difficulty == 1
  {
    DifficultyBound(c, chain, 5);
    RunMovesExactlyWhen(c, chain, 5);
  }
}
