/** Giving back the buffers of a dead queue, and shutting the queue down. */
module VringTeardown {
  import opened Options
  import opened Vring

  /** Calling `virtqueue_detach_unused_buf` until it returns NULL: the tokens it returned and the state it leaves. */
  ghost function Drain(q: Vq, g: Shape): (r: (seq<Token>, Vq, Shape))
    requires Valid(q, g)
    decreases LiveCount(g.chains)
  {
    FirstLiveIsFirst(q.data);
    match FirstLive(q.data)
    case None => ([], q, g)
    case Some(h) =>
      UnuseKeepsValid(q, g, h);
      ReplaceChain(g.chains, h, []);
      var rest := Drain(Unuse(q, g, h), Release(g, h));
      ([q.data[h]] + rest.0, rest.1, rest.2)
  }

  /** The tokens outstanding, by head. */
  function LiveTokens(data: seq<Token>): seq<Token> {
    if data == [] then []
    else LiveTokens(data[..|data| - 1]) + if data[|data| - 1] != 0 then [data[|data| - 1]] else []
  }

  lemma {:induction false} FirstLiveToken(data: seq<Token>, h: nat)
    requires h < |data| && data[h] != 0 && forall j | 0 <= j < h :: data[j] == 0
    ensures LiveTokens(data) == [data[h]] + LiveTokens(data[h := 0])
  {
    var n := |data| - 1;
    if h == n {
      assert data[h := 0][..n] == data[..n];
      NoTokens(data[..n]);
    } else {
      assert data[h := 0][..n] == data[..n][h := 0];
      FirstLiveToken(data[..n], h);
    }
  }

  lemma {:induction false} NoTokens(data: seq<Token>)
    requires forall j | 0 <= j < |data| :: data[j] == 0
    ensures LiveTokens(data) == []
  {
    if data != [] { NoTokens(data[..|data| - 1]); }
  }

  /** Draining returns every outstanding token once, in the order of heads; then nothing is outstanding, the free list
      is complete, and the available index is back at the last used one. */
  lemma {:induction false} DrainReturnsEachOnce(q: Vq, g: Shape)
    requires Valid(q, g)
    ensures var (tokens, q', g') := Drain(q, g);
      && tokens == LiveTokens(q.data)
      && |tokens| == LiveCount(g.chains)
      && Valid(q', g') && FirstLive(q'.data) == None
      && q'.numFree == q'.num == q.num
      && q'.availIdx == q'.availIdxShadow == q'.lastUsedIdx == q.lastUsedIdx
    decreases LiveCount(g.chains)
  {
    FirstLiveIsFirst(q.data);
    match FirstLive(q.data)
    case None =>
      NoTokens(q.data);
      NoChains(g.chains);
    case Some(h) =>
      UnuseKeepsValid(q, g, h);
      ReplaceChain(g.chains, h, []);
      FirstLiveToken(q.data, h);
      DrainReturnsEachOnce(Unuse(q, g, h), Release(g, h));
  }

  /** After a shutdown nothing of the old state is left: any two queues of the same size end up the same, namely as a
      queue just built over zeroed pages. */
  lemma ShutdownForgets(q: Vq, built: Vq, event: bool)
    requires Sized(q, FreshShape(q.num)) && Sized(built, FreshShape(q.num)) && built.num == q.num
    ensures Initialized(Zeroed(q), event) == Initialized(Zeroed(built), event).(notifications := q.notifications)
  {
  }
}
