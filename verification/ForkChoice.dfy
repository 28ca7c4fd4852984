/** `core/forkchoice.go`: which of two heads the chain follows. */
module ForkChoice {
  import opened Prelude
  import opened ChainStore

  datatype Verdict = MissingTd | Verdict(reorg: bool)

  /** What the node prefers locally, and one random draw. */
  datatype Taste = Taste(keepCurrent: bool, keepExtern: bool, coin: bool)

  function ReorgNeeded(td: map<Block, nat>, terminal: Option<nat>, current: Block, header: Block, taste: Taste): Verdict
  {
    if current !in td || header !in td then MissingTd
    else if terminal.Some? && terminal.value <= td[header] then Verdict(true)
    else if td[header] != td[current] then Verdict(td[header] > td[current])
    else if header.number != current.number then Verdict(header.number < current.number)
    else Verdict(!taste.keepCurrent && (taste.keepExtern || taste.coin))
  }

  /** Without a terminal total difficulty the chosen head is never the lighter one. */
  lemma ChoosesHeavier(td: map<Block, nat>, current: Block, header: Block, taste: Taste)
    requires current in td && header in td
    ensures var v := ReorgNeeded(td, None, current, header, taste);
      && v.Verdict?
      && (v.reorg ==> td[header] >= td[current]) && (!v.reorg ==> td[header] <= td[current])
      && (v.reorg && td[header] == td[current] ==> header.number <= current.number)
  {
  }

  /**
   What decides: a terminal total that the header reaches, then the greater
   total, then the lower number, and of equals the local taste before the draw.
   Without a total for both there is no verdict.
   */
  lemma DecidedBy(td: map<Block, nat>, terminal: Option<nat>, current: Block, header: Block, taste: Taste)
    ensures var v := ReorgNeeded(td, terminal, current, header, taste);
      && (v.MissingTd? <==> current !in td || header !in td)
      && (v.Verdict? && terminal.Some? && td[header] >= terminal.value ==> v.reorg)
      && (v.Verdict? && (terminal.None? || td[header] < terminal.value) ==>
            && (td[header] > td[current] ==> v.reorg) && (td[header] < td[current] ==> !v.reorg)
            && (td[header] == td[current] && header.number != current.number ==>
                  (v.reorg <==> header.number < current.number))
            && (td[header] == td[current] && header.number == current.number ==>
                  && (taste.keepCurrent ==> !v.reorg)
                  && (!taste.keepCurrent && taste.keepExtern ==> v.reorg)
                  && (!taste.keepCurrent && !taste.keepExtern ==> (v.reorg <==> taste.coin))))
  {
  }

  /**
   Two heads can each replace the other, whatever the draws, exactly when nothing
   but the draw tells them apart.  Otherwise a switch is not undone.
   */
  lemma SwitchesBackIff(td: map<Block, nat>, a: Block, b: Block, keepA: bool, keepB: bool)
    requires a in td && b in td
    ensures
      (exists c, d :: ReorgNeeded(td, None, a, b, Taste(keepA, keepB, c)) == Verdict(true) &&
                      ReorgNeeded(td, None, b, a, Taste(keepB, keepA, d)) == Verdict(true))
      <==> td[a] == td[b] && a.number == b.number && !keepA && !keepB
  {
    if td[a] == td[b] && a.number == b.number && !keepA && !keepB {
      assert ReorgNeeded(td, None, a, b, Taste(keepA, keepB, true)) == Verdict(true);
      assert ReorgNeeded(td, None, b, a, Taste(keepB, keepA, true)) == Verdict(true);
    }
  }
}
