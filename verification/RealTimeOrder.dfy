/** The optimistic protocols in real time. An update takes effect when its writer posts the WRITE, inside the writer's
    own operation; an accepted read when it fetches the lock word, inside the reader's. So a read sees every update
    whose `unlock()` has returned before the read begins, and reads that do not overlap never go back. */
module RealTimeOrder {
  import opened Words
  import opened TupleLayout
  import opened OptimisticProtocol
  import opened OptimisticLinearizability

  ghost function Published(s: State): Tuple
    requires |s.hist| >= 1
  {
    s.hist[Newest(s)]
  }

  lemma OthersPublishNothing(cfg: Config, s: State, w: Id, a: Action)
    requires Shaped(cfg, s) && Enabled(cfg, s, w, a) && !a.Publish?
    ensures Apply(cfg, s, w, a).hist == s.hist
  {
  }

  /** A whole update of the newest tuple at each posting, and nothing in any other step. */
  lemma StepRefinesPublished(cfg: Config, s: State, w: Id, a: Action)
    requires Inv(cfg, s) && Enabled(cfg, s, w, a)
    ensures |Published(s)| == cfg.Size() && |Apply(cfg, s, w, a).hist| >= 1
    ensures Published(Apply(cfg, s, w, a)) ==
      if a.Publish? then AfterCommit(cfg, s.ws[w].pc.f, Published(s)) else Published(s)
  {
    if a.Publish? {
      PublishIsCommit(cfg, s, w);
    } else {
      OthersPublishNothing(cfg, s, w, a);
    }
  }

  /** A run is a run of an atomic tuple that is updated when the writers post. */
  lemma RunRefinesPublished(cfg: Config, tr: seq<State>, i: nat) returns (w: Id, a: Action)
    requires Run(cfg, tr) && cfg.KeepsPayload() && i + 1 < |tr|
    ensures StepBy(cfg, tr[i], w, a, tr[i + 1]) && |tr[i].hist| >= 1 && |tr[i + 1].hist| >= 1
    ensures |Published(tr[i])| == cfg.Size()
    ensures Published(tr[i + 1]) ==
      if a.Publish? then AfterCommit(cfg, tr[i].ws[w].pc.f, Published(tr[i])) else Published(tr[i])
  {
    RunInv(cfg, tr, i);
    assert StepAt(cfg, tr, i);
    w, a :| StepBy(cfg, tr[i], w, a, tr[i + 1]);
    StepRefinesPublished(cfg, tr[i], w, a);
  }

  /** The number of the tuple that an accepted reader returns. */
  ghost function ReadAt(tr: seq<State>, rd: Reading): nat
    requires rd.at < |tr| && |tr[rd.at].hist| >= 1
  {
    Newest(tr[rd.at])
  }

  /** The same atomic tuple is what an accepted reader returns, at an instant inside its operation. */
  lemma AcceptedReadIsPublished(cfg: Config, tr: seq<State>, j: nat, w: Id)
    requires Run(cfg, tr) && cfg.KeepsPayload() && j < |tr| && w in tr[j].ws && tr[j].ws[w].pc.Accepted?
    requires InBound(cfg, tr[j].ws[w].pc.rd)
    ensures var rd := tr[j].ws[w].pc.rd;
      && rd.began < rd.at < j && |tr[rd.at].hist| >= 1 && rd.buf == Published(tr[rd.at])
      && ReadAt(tr, rd) <= |tr[j].ops| && rd.buf == Replay(cfg, tr[j].ops[..ReadAt(tr, rd)])
  {
    var rd := tr[j].ws[w].pc.rd;
    AcceptedReadIsLinearizable(cfg, tr, j, w);
    WritersAreSerial(cfg, tr, j);
    HistoryPrefix(cfg, tr, rd.at, j);
  }

  /** A read that begins once `n` updates have been posted, and their `unlock()` has returned, sees all of them and none
      that is posted after it has ended. */
  lemma ReadSeesEarlierUpdates(cfg: Config, tr: seq<State>, p: nat, j: nat, w: Id) returns (n: nat)
    requires Run(cfg, tr) && cfg.KeepsPayload() && j < |tr| && w in tr[j].ws && tr[j].ws[w].pc.Accepted?
    requires InBound(cfg, tr[j].ws[w].pc.rd) && p <= tr[j].ws[w].pc.rd.began
    ensures p < |tr| && |tr[p].ops| <= n <= |tr[j].ops|
    ensures tr[p].ops <= tr[j].ops && tr[j].ws[w].pc.rd.buf == Replay(cfg, tr[j].ops[..n])
  {
    var rd := tr[j].ws[w].pc.rd;
    AcceptedReadIsPublished(cfg, tr, j, w);
    n := ReadAt(tr, rd);
    HistoryPrefix(cfg, tr, p, rd.at);
    HistoryPrefix(cfg, tr, p, j);
    WritersAreSerial(cfg, tr, rd.at);
  }

  /** Of two reads that do not overlap, the later one returns the same tuple or a newer one. */
  lemma ReadsNeverGoBack(cfg: Config, tr: seq<State>, i: nat, v: Id, j: nat, w: Id) returns (m: nat, n: nat)
    requires Run(cfg, tr) && cfg.KeepsPayload() && i < |tr| && j < |tr|
    requires v in tr[i].ws && tr[i].ws[v].pc.Accepted? && InBound(cfg, tr[i].ws[v].pc.rd)
    requires w in tr[j].ws && tr[j].ws[w].pc.Accepted? && InBound(cfg, tr[j].ws[w].pc.rd)
    requires i <= tr[j].ws[w].pc.rd.began
    ensures m <= n <= |tr[j].ops|
    ensures tr[i].ws[v].pc.rd.buf == Replay(cfg, tr[j].ops[..m])
    ensures tr[j].ws[w].pc.rd.buf == Replay(cfg, tr[j].ops[..n])
  {
    var rd, rd' := tr[i].ws[v].pc.rd, tr[j].ws[w].pc.rd;
    AcceptedReadIsPublished(cfg, tr, i, v);
    AcceptedReadIsPublished(cfg, tr, j, w);
    m, n := ReadAt(tr, rd), ReadAt(tr, rd');
    HistoryPrefix(cfg, tr, rd.at, rd'.at);
    HistoryPrefix(cfg, tr, i, j);
    assert tr[j].ops[..m] == tr[i].ops[..m];
  }
}
