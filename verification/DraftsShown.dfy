/** Which drafts are shown, from the entries and the saved replies themselves. */
module DraftsShown {
  import opened Basics
  import opened Selection
  import opened Sorting
  import opened Transcript
  import opened Whitespace
  import opened Drafts

  /** A step of the agent the person talks to, or of any agent when none is given. */
  predicate IsAttempt(e: Entry, primaryAgentId: Option<string>) {
    e.kind == "generation" && e.actorType == "agent" && (primaryAgentId == None || primaryAgentId == e.actorId)
  }

  /** An agent saved a reply in this run at this time; a removed reply leaves its entry as a tombstone. */
  ghost predicate SavedReply(journal: seq<Entry>, messages: seq<Message>, run: string, agent: Option<string>, at: int) {
    run != ""
    && ((exists m :: m in messages && m.senderType == "agent" && m.messageType == "text"
                  && m.runId == Some(run) && m.senderId == agent && m.at == at)
      || (exists t :: t in journal && t.kind == "message" && t.status == "removed" && t.actorType == "agent"
                   && t.data.messageType == Some("text")
                   && t.runId == Some(run) && t.actorId == agent && t.at == at))
  }

  predicate Earlier(journal: seq<Entry>, primaryAgentId: Option<string>, run: string, agent: Option<string>, at: int,
      g: Entry)
  {
    g in journal && IsAttempt(g, primaryAgentId) && g.runId == Some(run) && g.actorId == agent && g.at <= at
  }

  /** The latest attempt of that run and agent by that time; of two at one time, the one with the greater id. */
  ghost predicate Latest(le: TextOrder, journal: seq<Entry>, primaryAgentId: Option<string>, run: string,
      agent: Option<string>, at: int, g: Entry)
  {
    Earlier(journal, primaryAgentId, run, agent, at, g)
    && forall h :: Earlier(journal, primaryAgentId, run, agent, at, h) ==>
         h.at < g.at || (h.at == g.at && le(h.id, g.id)) || h == g
  }

  /** A saved reply stands in the place of this id. */
  ghost predicate Superseded(le: TextOrder, journal: seq<Entry>, messages: seq<Message>, primaryAgentId: Option<string>,
      id: string)
  {
    exists run, agent, at, g ::
      SavedReply(journal, messages, run, agent, at) && Latest(le, journal, primaryAgentId, run, agent, at, g)
      && g.id == id
  }

  predicate HasInk(text: Option<string>) {
    text.Some? && exists i :: 0 <= i < |text.value| && !IsSpace(text.value[i])
  }

  lemma ReplyIsReceipt(journal: seq<Entry>, messages: seq<Message>, run: string, agent: Option<string>, at: int)
    ensures SavedReply(journal, messages, run, agent, at) <==>
      run != "" && Receipt(Some(run), agent, at) in Receipts(journal, messages)
  {
    var r := Receipt(Some(run), agent, at);
    ReceiptMembers(journal, messages, r);
    forall m: Message ensures MessageReceipt(m) == r <==> m.runId == Some(run) && m.senderId == agent && m.at == at {
    }
    forall e: Entry ensures EntryReceipt(e) == r <==> e.runId == Some(run) && e.actorId == agent && e.at == at {
    }
  }

  lemma LatestIsNewest(le: TextOrder, journal: seq<Entry>, primaryAgentId: Option<string>, run: string,
      agent: Option<string>, at: int, g: Entry)
    requires run != ""
    ensures Latest(le, journal, primaryAgentId, run, agent, at, g) <==>
      NewestAttempt(le, Generations(journal, primaryAgentId), Receipt(Some(run), agent, at), g)
  {
    var r := Receipt(Some(run), agent, at);
    FilterElements((e: Entry) => IsGeneration(e, primaryAgentId), journal);
    forall h ensures Earlier(journal, primaryAgentId, run, agent, at, h) <==>
      h in Generations(journal, primaryAgentId) && Precedes(h, r)
    {
    }
  }

  lemma SupersededIsReplaced(le: TextOrder, journal: seq<Entry>, messages: seq<Message>, primaryAgentId: Option<string>,
      id: string)
    requires TotalOrder(le)
    ensures Superseded(le, journal, messages, primaryAgentId, id) <==>
      id in Replaced(le, Generations(journal, primaryAgentId), Receipts(journal, messages))
  {
    var gs, rs := Generations(journal, primaryAgentId), Receipts(journal, messages);
    ReplacedExactly(le, gs, rs, id);
    if run, agent, at, g :| SavedReply(journal, messages, run, agent, at)
                            && Latest(le, journal, primaryAgentId, run, agent, at, g) && g.id == id {
      ReplyIsReceipt(journal, messages, run, agent, at);
      LatestIsNewest(le, journal, primaryAgentId, run, agent, at, g);
    }
    if r, g :| r in rs && NewestAttempt(le, gs, r, g) && g.id == id {
      var run := r.runId.value;
      assert r == Receipt(Some(run), r.agentId, r.at);
      ReplyIsReceipt(journal, messages, run, r.agentId, r.at);
      LatestIsNewest(le, journal, primaryAgentId, run, r.agentId, r.at, g);
    }
  }

  /**
   * A draft is shown exactly when it is an attempt of the journal, under way
   * or completed, with a text that is not blank, and no saved reply supersedes it.
   */
  lemma ShownExactly(le: TextOrder, journal: seq<Entry>, messages: seq<Message>, primaryAgentId: Option<string>,
      e: Entry)
    requires TotalOrder(le)
    ensures e in PublicGenerations(le, journal, messages, primaryAgentId) <==>
      e in journal && IsAttempt(e, primaryAgentId) && e.status in ["running", "streaming", "completed"]
      && HasInk(e.data.text) && !Superseded(le, journal, messages, primaryAgentId, e.id)
  {
    var gs := Generations(journal, primaryAgentId);
    SupersededIsReplaced(le, journal, messages, primaryAgentId, e.id);
    FilterMembers((g: Entry) => IsGeneration(g, primaryAgentId), journal, e);
    FilterMembers(Shown(Replaced(le, gs, Receipts(journal, messages))), gs, e);
    if e.data.text.Some? {
      TrimIsTrimmed(e.data.text.value);
    }
  }
}
