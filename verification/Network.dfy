/** Message passing between the two servers. */
module Network {
  import opened Blocks

  /** The connection between the two servers: one first-in first-out queue each way, and all
      that has ever been sent. */
  class NetIO {
    var toAlice: seq<seq<Block>>
    var toBob: seq<seq<Block>>
    ghost var sentToAlice: seq<seq<Block>>
    ghost var sentToBob: seq<seq<Block>>

    constructor ()
      ensures toAlice == [] && toBob == [] && sentToAlice == [] && sentToBob == []
    {
      toAlice, toBob, sentToAlice, sentToBob := [], [], [], [];
    }

    method SendToBob(m: seq<Block>)
      modifies this
      ensures toBob == old(toBob) + [m] && toAlice == old(toAlice)
      ensures sentToBob == old(sentToBob) + [m] && sentToAlice == old(sentToAlice)
    {
      toBob := toBob + [m];
      sentToBob := sentToBob + [m];
    }

    method SendToAlice(m: seq<Block>)
      modifies this
      ensures toAlice == old(toAlice) + [m] && toBob == old(toBob)
      ensures sentToAlice == old(sentToAlice) + [m] && sentToBob == old(sentToBob)
    {
      toAlice := toAlice + [m];
      sentToAlice := sentToAlice + [m];
    }

    method BobReceives() returns (m: seq<Block>)
      requires toBob != []
      modifies this`toBob
      ensures m == old(toBob[0]) && toBob == old(toBob[1..])
    {
      m, toBob := toBob[0], toBob[1..];
    }

    method AliceReceives() returns (m: seq<Block>)
      requires toAlice != []
      modifies this`toAlice
      ensures m == old(toAlice[0]) && toAlice == old(toAlice[1..])
    {
      m, toAlice := toAlice[0], toAlice[1..];
    }
  }
}
