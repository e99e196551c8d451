/** The block chain: a constant-time append check that agrees with whole-chain validation. */
module Blockchain {
  import opened Outcomes

  datatype Block = Block(index: int, timestamp: int, transactions: seq<string>, prevHash: string,
                         hash: string, nonce: int, validator: string)

  datatype Error = NilBlock | BadIndex | BadPreviousHash | NotFound | HashMismatch | IndexMismatch

  function Genesis(now: int): Block { Block(0, now, ["Genesis Block"], "0", "0", 0, "system") }

  predicate Follows(b: Block, last: Block) { b.index == last.index + 1 && b.prevHash == last.hash }

  /** Every block follows the one before it. */
  ghost predicate Linked(chain: seq<Block>) {
    forall i :: 1 <= i < |chain| ==> Follows(chain[i], chain[i - 1])
  }

  function Append(chain: seq<Block>, b: Option<Block>): Result<seq<Block>, Error>
    requires chain != []
  {
    var last := chain[|chain| - 1];
    if b.None? then Err(NilBlock)
    else if b.value.index != last.index + 1 then Err(BadIndex)
    else if b.value.prevHash != last.hash then Err(BadPreviousHash)
    else Ok(chain + [b.value])
  }

  class Chain {
    var blocks: seq<Block>

    constructor (now: int)
      ensures blocks == [Block(0, now, ["Genesis Block"], "0", "0", 0, "system")]
      ensures blocks == Built(now, [])
    {
      blocks := [];
      new;
      blocks := blocks + [Genesis(now)];
    }

    method AddBlock(block: Option<Block>) returns (r: Result<(), Error>)
      requires blocks != []
      modifies this
      ensures match Append(old(blocks), block)
              case Ok(chain) => r == Ok(()) && blocks == chain
              case Err(e) => r == Err(e) && blocks == old(blocks)
      ensures var last := old(blocks)[|old(blocks)| - 1];
              r == if block.None? then Err(NilBlock) else if block.value.index != last.index + 1 then Err(BadIndex)
                   else if block.value.prevHash != last.hash then Err(BadPreviousHash) else Ok(())
      ensures blocks == old(blocks) + if r.Ok? then [block.value] else []
    {
      if block.None? {
        return Err(NilBlock);
      }
      var lastBlock := blocks[|blocks| - 1];
      if block.value.index != lastBlock.index + 1 {
        return Err(BadIndex);
      }
      if block.value.prevHash != lastBlock.hash {
        return Err(BadPreviousHash);
      }
      blocks := blocks + [block.value];
      return Ok(());
    }

    method GetBlock(index: int) returns (r: Result<Block, Error>)
      ensures r == if 0 <= index < |blocks| then Ok(blocks[index]) else Err(NotFound)
    {
      if index < 0 || index >= |blocks| {
        return Err(NotFound);
      }
      return Ok(blocks[index]);
    }

    /** Accepts exactly the linked chains; otherwise names what is wrong with the first unlinked block. */
    method ValidateChain() returns (r: Result<(), Error>)
      ensures r.Ok? <==> Linked(blocks)
      ensures r.Ok? <==> forall i :: 1 <= i < |blocks| ==>
                           blocks[i].index == blocks[i - 1].index + 1 && blocks[i].prevHash == blocks[i - 1].hash
      ensures r.Err? ==> exists i :: 1 <= i < |blocks| && Linked(blocks[..i]) && !Follows(blocks[i], blocks[i - 1])
                                     && r.error == if blocks[i].prevHash != blocks[i - 1].hash then HashMismatch
                                                   else IndexMismatch
    {
      var i := 1;
      while i < |blocks|
        invariant 1 <= i
        invariant i <= |blocks| ==> Linked(blocks[..i])
        invariant i > |blocks| ==> blocks == []
      {
        var currentBlock, prevBlock := blocks[i], blocks[i - 1];
        if currentBlock.prevHash != prevBlock.hash {
          return Err(HashMismatch);
        }
        if currentBlock.index != prevBlock.index + 1 {
          return Err(IndexMismatch);
        }
        i := i + 1;
      }
      if blocks != [] {
        assert blocks[..|blocks|] == blocks;
      }
      return Ok(());
    }
  }

  // ---------- appending one by one against validating the whole ----------

  /** The chain after any sequence of AddBlock calls, rejected ones changing nothing. */
  function Built(now: int, attempts: seq<Option<Block>>): (chain: seq<Block>)
    ensures chain != []
  {
    if attempts == [] then [Genesis(now)]
    else
      var before := Built(now, attempts[..|attempts| - 1]);
      match Append(before, attempts[|attempts| - 1]) case Ok(chain) => chain case Err(_) => before
  }

  /** Every chain built from genesis validates, and block i has index i. */
  lemma {:induction false} BuiltIsLinked(now: int, attempts: seq<Option<Block>>)
    ensures Linked(Built(now, attempts))
    ensures forall i :: 0 <= i < |Built(now, attempts)| ==> Built(now, attempts)[i].index == i
    ensures forall i :: 1 <= i < |Built(now, attempts)| ==>
              Built(now, attempts)[i].prevHash == Built(now, attempts)[i - 1].hash
  {
    if attempts != [] {
      BuiltIsLinked(now, attempts[..|attempts| - 1]);
    }
  }

  /** Appending blocks in turn, stopping at the first rejection. */
  function AppendAll(chain: seq<Block>, blocks: seq<Block>): Result<seq<Block>, Error>
    requires chain != []
    decreases |blocks|
  {
    if blocks == [] then Ok(chain)
    else
      match Append(chain, Some(blocks[0]))
      case Ok(longer) => AppendAll(longer, blocks[1..])
      case Err(e) => Err(e)
  }

  /**
   The append check and whole-chain validation accept the same chains: appending the
   blocks of any sequence one by one rebuilds it without rejection exactly when it is linked.
   */
  lemma {:induction false} AppendAllIffLinked(chain: seq<Block>, blocks: seq<Block>)
    requires chain != [] && Linked(chain)
    ensures AppendAll(chain, blocks).Ok? <==> Linked(chain + blocks)
    ensures AppendAll(chain, blocks).Ok? ==> AppendAll(chain, blocks).value == chain + blocks
    decreases |blocks|
  {
    if blocks == [] {
      assert chain + blocks == chain;
    } else {
      var longer := chain + [blocks[0]];
      assert chain + blocks == longer + blocks[1..];
      assert (chain + blocks)[|chain|] == blocks[0] && (chain + blocks)[|chain| - 1] == chain[|chain| - 1];
      if Append(chain, Some(blocks[0])).Ok? {
        AppendAllIffLinked(longer, blocks[1..]);
      } else {
        assert !Follows((chain + blocks)[|chain|], (chain + blocks)[|chain| - 1]);
      }
    }
  }

  /** In particular for a whole sequence starting at a genesis block. */
  lemma RebuiltIffValid(chain: seq<Block>)
    requires chain != []
    ensures AppendAll([chain[0]], chain[1..]) == Ok(chain) <==> Linked(chain)
  {
    AppendAllIffLinked([chain[0]], chain[1..]);
    assert [chain[0]] + chain[1..] == chain;
  }
}
