/** Which protocol a frame on the shared port belongs to (clients/node/index.js,
    Client._onChunk). */
module Routing {
  import opened Wire
  import Push = PushCodec
  import Pull = PullCodec
  import PushModel
  import PullModel

  /** Frames of the push block of types go to the push receivers, all others to the
      pull clients. */
  predicate ToPush(b: bytes) {
    |b| >= 1 && Push.MSG_START <= b[0] <= Push.MSG_COMPLETE
  }

  /** The first byte decides, and nothing is lost by it: a frame sent to the one side
      would have been dropped by the other, by every receiver and client in every
      state. */
  lemma RoutingLosesNothing(b: bytes, cfg: PushModel.Config, rx: PushModel.Receiver,
                            c: PullModel.Client, now: int)
    ensures ToPush(b) ==> PullModel.OnFrame(c, Pull.Decode(b), now) == c
    ensures !ToPush(b) ==> PushModel.OnFrame(cfg, rx, Push.Decode(b), now) == rx
  {
    if Push.Decode(b).Some? {
      Push.Canonical(b);
    }
  }
}
