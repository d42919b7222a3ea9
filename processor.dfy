/** The optimization processor: a list of optimizer links, kept as the
    `next` fields of the links themselves, that a program is passed
    through from the head. */
module Processor {
  import opened Wrappers
  import opened Nodes
  import opened Optimizer

  class CodeOptimizationProcessor {
    var chainHead: NotUsedVariableOptimize?
    /** The links reachable from the head, in order. */
    ghost var links: seq<NotUsedVariableOptimize>

    /** No head and no links, or the links start at the head and are linked
        by their `next` fields. */
    ghost predicate Valid()
      reads this, Links(links)
    {
      (chainHead == null <==> links == []) &&
      (links != [] ==> links[0] == chainHead && Linked(links))
    }

    /** `__init__` takes the head, if any, with whatever follows it. */
    constructor (mainChain: NotUsedVariableOptimize?, ghost chainLinks: seq<NotUsedVariableOptimize>)
      requires mainChain == null ==> chainLinks == []
      requires mainChain != null ==> Linked(chainLinks) && chainLinks[0] == mainChain
      ensures Valid() && chainHead == mainChain && links == chainLinks
    {
      chainHead := mainChain;
      links := chainLinks;
    }

    /** `add_new_chain`: an empty processor takes the chain as its head;
        otherwise the chain, with the links already after it, is hung after
        the last link, and the earlier links keep their order. */
    method AddNewChain(chain: NotUsedVariableOptimize, ghost chainLinks: seq<NotUsedVariableOptimize>)
      requires Valid() && Linked(chainLinks) && chainLinks[0] == chain
      requires Links(links) !! Links(chainLinks)
      modifies this, Links(links)`next
      ensures Valid() && links == old(links) + chainLinks
      ensures chainHead == (if old(chainHead) == null then chain else old(chainHead))
    {
      if chainHead == null {
        chainHead := chain;
        links := chainLinks;
        return;
      }
      var iter := chainHead;
      ghost var i := 0;
      var n := iter.GetNext();
      while n != null
        invariant 0 <= i < |links| && iter == links[i] && n == iter.next
        invariant n == if i < |links| - 1 then links[i + 1] else null
        modifies {}
        decreases |links| - i
      {
        i := i + 1;
        iter := n;
        n := iter.GetNext();
      }
      ghost var before := links;
      iter.SetNext(chain);
      links := links + chainLinks;
      JoinLinked(before, chainLinks);
    }

    /** `start_optimization`: a crash on an empty processor, else the head's
        `process_optimization`. */
    method StartOptimization(program: Program) returns (r: Result<Program>, ghost first: Result<Program>)
      requires Valid() && AllIdle(links)
      modifies Links(links), ChainSymbols(links)
      ensures Valid()
      ensures r.Ok? ==> AllIdle(links)
      ensures chainHead == null ==> r == Err(RuntimeCrash)
      ensures chainHead != null ==>
                first == old(OptimizeResult(program, chainHead.semanticModule)) &&
                (first.Err? ==> r == first) &&
                (|links| == 1 ==> r == first) &&
                (r.Ok? ==> first.Ok?)
      ensures chainHead != null ==>
                var run := old(IdleTables(links); ChainRun(program, Tables(links), CountsOf(ChainSymbols(links))));
                (run.Err? ==> r == Err(RuntimeCrash)) &&
                (run.Ok? ==> r == Ok(run.value.0) && Holds(old(ChainSymbols(links)), run.value.1))
    {
      if chainHead == null {
        return Err(RuntimeCrash), Err(RuntimeCrash);
      }
      r, first := chainHead.ProcessOptimization(program, links);
    }
  }

  /** After `add_new_chain`, the processor's links are the earlier links
      and then the added ones, and a run over them is the run of the earlier
      links followed by the run of the added ones on what those leave. */
  lemma AddedChainRunsLast(program: Program, front: seq<NotUsedVariableOptimize>, back: seq<NotUsedVariableOptimize>, count: Counts)
    requires TablesOK(Tables(front + back)) && ChainSymbols(front + back) <= count.Keys
    ensures TablesOK(Tables(front)) && TablesOK(Tables(back))
    ensures ChainSymbols(front) <= count.Keys && ChainSymbols(back) <= count.Keys
    ensures ChainRun(program, Tables(front + back), count) ==
              match ChainRun(program, Tables(front), count)
              case Err(e) => Err(e)
              case Ok((mid, left)) => ChainRun(mid, Tables(back), left)
  {
    TablesJoinChain(front, back);
    ChainRunAppend(program, Tables(front), Tables(back), count);
  }

  /** Hanging a linked chain after the last link of another, disjoint one
      gives a linked chain. */
  lemma JoinLinked(front: seq<NotUsedVariableOptimize>, back: seq<NotUsedVariableOptimize>)
    requires |front| > 0 && |back| > 0 && Links(front) !! Links(back)
    requires forall i, j :: 0 <= i < j < |front| ==> front[i] != front[j]
    requires forall i :: 0 <= i < |front| - 1 ==> front[i].next == front[i + 1]
    requires front[|front| - 1].next == back[0]
    requires Linked(back)
    ensures Linked(front + back)
  {
    var all := front + back;
    forall i, j | 0 <= i < j < |all|
      ensures all[i] != all[j]
    {
      if j < |front| {
      } else if i >= |front| {
        assert all[i] == back[i - |front|] && all[j] == back[j - |front|];
      } else {
        assert all[i] in Links(front) && all[j] in Links(back);
      }
    }
    forall i | 0 <= i < |all| - 1
      ensures all[i].next == all[i + 1]
    {
      if i >= |front| {
        assert all[i] == back[i - |front|] && all[i + 1] == back[i + 1 - |front|];
      }
    }
  }
}
