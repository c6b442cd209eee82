/**
 * The payload the service pushes to a client (CallbackInfoDC), and one
 * delivery of it.  Every property has a private setter and is assigned
 * once by the constructor, so a payload is an immutable value.
 */
module Callbacks {

  datatype CallbackInfoDC = CallbackInfoDC(
    usersLst: seq<string>,
    startGame: bool,
    endGame: bool,
    gameState: bool,
    readyState: bool,
    endGameMsg: string,
    roundStatus: string)

  /** One `UpdateGui` call: the payload pushed on the channel of client `to`. */
  datatype Send = Send(to: int, info: CallbackInfoDC)

  /** The recipients of a broadcast, in the order they were called. */
  function Recipients(sends: seq<Send>): (ids: seq<int>)
    ensures |ids| == |sends| && forall i :: 0 <= i < |sends| ==> ids[i] == sends[i].to
  {
    seq(|sends|, i requires 0 <= i < |sends| => sends[i].to)
  }

  /** The constructor stores each of its seven arguments in its own property. */
  lemma PayloadRecord(lst: seq<string>, sg: bool, eg: bool, gs: bool, rs: bool, msg: string, st: string)
    ensures var p := CallbackInfoDC(lst, sg, eg, gs, rs, msg, st);
      p.usersLst == lst && p.startGame == sg && p.endGame == eg &&
      p.gameState == gs && p.readyState == rs && p.endGameMsg == msg && p.roundStatus == st
  {
  }
}
