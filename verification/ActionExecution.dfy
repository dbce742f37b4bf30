/** One approved external action: its approval, the queue worker's attempts to execute it with retries
    and crashes, and what those attempts do to the provider's workspace. */
module ActionExecution {
  import opened Common

  datatype Status = Proposed | Queued | Executing | Completed | Failed | Rejected

  /** The row's JSON result: upload ids by media id, the page id, or an error. */
  datatype Result = Result(uploads: map<string, string>, pageId: Option<string>, error: bool)

  datatype Media = Media(userId: string, momentId: string, redactionState: string, blobStored: bool, decryptable: bool)

  // ---------------------------------------------------------------- the media gate

  datatype GateAnswer = Passed | NotFound | RedactionNotApplied | BlobMissing | Undecryptable

  /** The one rule for pixels leaving toward an adapter. */
  function ReadMediaForAdapter(table: map<string, Media>, userId: string, id: string, allowUnredacted: bool,
                               allowNone: bool): GateAnswer
  {
    if id !in table || table[id].userId != userId then NotFound
    else if
      && table[id].redactionState != "applied"
      && !(allowNone && table[id].redactionState == "none")
      && !allowUnredacted
      then RedactionNotApplied
    else if !table[id].blobStored then BlobMissing
    else if !table[id].decryptable then Undecryptable
    else Passed
  }

  /** The worker's stance: no override, and 'none' is not enough. */
  function ReadApprovedMedia(table: map<string, Media>, userId: string, id: string): GateAnswer {
    ReadMediaForAdapter(table, userId, id, false, false)
  }

  predicate Shareable(table: map<string, Media>, userId: string, id: string) {
    id in table && table[id].userId == userId && table[id].redactionState == "applied"
  }

  /** The gates only differ in leniency: what execution lets through, every other setting does too, and
      it is the user's own, redacted, stored and readable media. */
  lemma {:induction false} ExecutionGateIsStrictest(table: map<string, Media>, userId: string, id: string,
                                                    allowUnredacted: bool, allowNone: bool)
    ensures ReadApprovedMedia(table, userId, id) == Passed <==>
            Shareable(table, userId, id) && table[id].blobStored && table[id].decryptable
    ensures ReadApprovedMedia(table, userId, id) == Passed ==>
            ReadMediaForAdapter(table, userId, id, allowUnredacted, allowNone) == Passed
    ensures ReadMediaForAdapter(table, userId, id, allowUnredacted, allowNone) == Passed ==>
              id in table && table[id].userId == userId
  {}

  /** Each refusal has its one reason, looked for in this order. */
  lemma {:induction false} GateMeans(table: map<string, Media>, userId: string, id: string, allowUnredacted: bool,
                                     allowNone: bool)
    ensures var answer := ReadMediaForAdapter(table, userId, id, allowUnredacted, allowNone);
            && (answer == NotFound <==> id !in table || table[id].userId != userId)
            && (answer != NotFound ==>
                  var state := table[id].redactionState;
                  var mayLeave := state == "applied" || allowUnredacted || (allowNone && state == "none");
                  && (answer == RedactionNotApplied <==> !mayLeave)
                  && (answer == BlobMissing <==> mayLeave && !table[id].blobStored)
                  && (answer == Undecryptable <==> mayLeave && table[id].blobStored && !table[id].decryptable))
  {}

  // ---------------------------------------------------------------- effects and faults

  /** A call that returns, throws, or is the last thing the process does; the last two may have landed. */
  datatype Fate = Returned | Threw(landed: bool) | Died(landed: bool)
  {
    predicate Landed() {
      Returned? || landed
    }
  }

  datatype Outcome = Finished | Skipped | Terminal | Retry | Crashed

  /** How many of the attempts neither finished nor had nothing to do. */
  function Unfinished(attempts: seq<Outcome>): nat {
    if attempts == [] then 0
    else Unfinished(Init(attempts)) + if Last(attempts) == Finished || Last(attempts) == Skipped then 0 else 1
  }

  lemma {:induction false} UnfinishedOneMore(attempts: seq<Outcome>, r: Outcome)
    ensures Unfinished(attempts + [r]) == Unfinished(attempts) + if r == Finished || r == Skipped then 0 else 1
  {
    assert Init(attempts + [r]) == attempts;
  }

  /** A multiset holds no element more often than it has elements. */
  lemma {:induction false} CountWithinSize(m: multiset<string>, x: string)
    ensures m[x] <= |m|
  {
    assert |m[x := 0]| == |m| - m[x];
  }

  /** An approval: the media files the user ticked, and the media table at that moment. */
  datatype Grant = Grant(mediaIds: seq<string>, table: map<string, Media>)
  {
    /** Every file is the user's own, redacted, and of the action's moment. */
    predicate Eligible(owner: string, momentId: string) {
      forall id :: id in mediaIds ==> Shareable(table, owner, id) && table[id].momentId == momentId
    }
  }

  /** One upload: which media, and the row the gate read for it. */
  datatype Upload = Upload(mediaId: string, row: Media)

  // ---------------------------------------------------------------- what exists at the provider

  /** What exists at the provider because of an action: pages, and uploads in order; of these, the pages and
      uploads whose answer was lost before it was durably recorded, and the uploads answered with an empty
      id, which a later attempt does not recognize; and the approval under which it was made. */
  datatype Ledger = Ledger(
    pages: nat, pagesLost: nat, uploads: seq<Upload>, lost: multiset<string>, unnamed: multiset<string>,
    grant: Option<Grant>)
  {
    predicate Empty() {
      && pages == 0 && pagesLost == 0 && uploads == [] && lost == multiset{} && unnamed == multiset{}
      && grant == None
    }

    /** How many answers were lost. */
    function Losses(): nat {
      pagesLost + |lost|
    }

    function AddUpload(u: Upload, heard: bool): Ledger {
      this.(uploads := uploads + [u], lost := if heard then lost else lost + multiset{u.mediaId})
    }

    /** The upload id was recorded, or forgotten. */
    function AddRecord(id: string, newId: string, landed: bool): Ledger {
      if !landed then this.(lost := lost + multiset{id})
      else if newId == "" then this.(unnamed := unnamed + multiset{id})
      else this
    }

    function AddPage(heard: bool): Ledger {
      this.(pages := pages + 1, pagesLost := if heard then pagesLost else pagesLost + 1)
    }
  }

  /** How often each file was uploaded. */
  function Sent(uploads: seq<Upload>): multiset<string> {
    if uploads == [] then multiset{} else Sent(Init(uploads)) + multiset{Last(uploads).mediaId}
  }

  /** The upload is drawn from the approval, and the gate read the user's own, redacted, readable row. */
  predicate Approved(u: Upload, grant: Option<Grant>, owner: string) {
    && grant.Some? && u.mediaId in grant.value.mediaIds
    && u.row.userId == owner && u.row.redactionState == "applied" && u.row.blobStored && u.row.decryptable
  }

  predicate AllApproved(uploads: seq<Upload>, grant: Option<Grant>, owner: string) {
    uploads == [] || (AllApproved(Init(uploads), grant, owner) && Approved(Last(uploads), grant, owner))
  }

  lemma {:induction false} UploadStep(uploads: seq<Upload>, grant: Option<Grant>, owner: string, u: Upload)
    requires AllApproved(uploads, grant, owner) && Approved(u, grant, owner)
    ensures AllApproved(uploads + [u], grant, owner)
    ensures Sent(uploads + [u]) == Sent(uploads) + multiset{u.mediaId}
  {
    assert Init(uploads + [u]) == uploads;
  }

  lemma {:induction false} EachApproved(uploads: seq<Upload>, grant: Option<Grant>, owner: string)
    requires AllApproved(uploads, grant, owner)
    ensures forall u :: u in uploads ==> Approved(u, grant, owner)
  {
    if uploads != [] {
      EachApproved(Init(uploads), grant, owner);
      assert uploads == Init(uploads) + [Last(uploads)];
    }
  }

  /** The file was uploaded before, or is the user's own, redacted, stored and readable. */
  predicate Passes(recorded: map<string, string>, table: map<string, Media>, owner: string, id: string) {
    || (id in recorded && recorded[id] != "")
    || (id in table && table[id] == Media(owner, table[id].momentId, "applied", true, true))
  }

  /** The row has a usable upload id for the file. */
  predicate Known(recorded: map<string, string>, id: string) {
    id in recorded && recorded[id] != ""
  }

  /** What was recorded still is, and every file recorded or seen since passed. */
  ghost predicate AllPassed(recorded: map<string, string>, now: map<string, string>, table: map<string, Media>,
                            owner: string, seen: seq<string>)
  {
    forall id ::
      && (Known(recorded, id) ==> Known(now, id))
      && (Known(now, id) || id in seen ==> Passes(recorded, table, owner, id))
  }

  lemma {:induction false} PassedNext(recorded: map<string, string>, now: map<string, string>,
                                      next: map<string, string>, table: map<string, Media>, owner: string,
                                      seen: seq<string>, id: string)
    requires AllPassed(recorded, now, table, owner, seen) && id in next
    requires if Known(now, id) then next == now
             else next == now[id := next[id]] && ReadApprovedMedia(table, owner, id) == Passed
    ensures AllPassed(recorded, next, table, owner, seen + [id])
  {}

  /** The files for which the row has a usable upload id. */
  function Named(recorded: map<string, string>): set<string> {
    set id | id in recorded && recorded[id] != ""
  }

  /** Files recorded with an empty id although no upload was answered without one. */
  function Unexplained(l: Ledger, recorded: map<string, string>): set<string> {
    set id | id in recorded && recorded[id] == "" && id !in l.unnamed
  }

  function InFlight(pending: Option<string>): multiset<string> {
    if pending.Some? then multiset{pending.value} else multiset{}
  }

  /** Every upload made is lost, answered without an id, recorded, or the one in flight. */
  ghost predicate Balanced(l: Ledger, recorded: map<string, string>, pending: Option<string>) {
    && Sent(l.uploads) == l.lost + l.unnamed + multiset(Named(recorded)) + InFlight(pending)
    && Unexplained(l, recorded) == {}
  }

  /** Everything was made under one approval, eligible when it was given, whose files the row lists. */
  ghost predicate Granted(l: Ledger, mediaIds: seq<string>, owner: string, momentId: string) {
    && l.grant.Some? && mediaIds == l.grant.value.mediaIds && l.grant.value.Eligible(owner, momentId)
    && AllApproved(l.uploads, l.grant, owner)
  }

  /** The accounts of an action that runs: `pending` is the media id of an upload not yet recorded, if any,
      and `paged` says whether a page is there that was not lost. */
  ghost predicate Booked(l: Ledger, recorded: map<string, string>, pending: Option<string>, paged: bool,
                         mediaIds: seq<string>, owner: string, momentId: string)
  {
    && Granted(l, mediaIds, owner, momentId) && Balanced(l, recorded, pending)
    && l.pages == l.pagesLost + if paged then 1 else 0
  }

  /** Files uploaded more than once more than their uploads were lost or left without an id. */
  function Excess(l: Ledger): set<string> {
    set id | id in Sent(l.uploads) && Sent(l.uploads)[id] > l.lost[id] + l.unnamed[id] + 1
  }

  /** The accounts of one that no longer runs: at most one page, and one upload of each file, more than were
      lost or left without an id. */
  ghost predicate Settled(l: Ledger, mediaIds: seq<string>, owner: string, momentId: string) {
    Granted(l, mediaIds, owner, momentId) && l.pages <= l.pagesLost + 1 && Excess(l) == {}
  }

  /** What left, spelled out: only approved files, each the owner's and redacted when the gate read it; and an
      approval of files each of which was the owner's, redacted and of the action's moment when it was given. */
  lemma {:induction false} GrantedMeans(l: Ledger, owner: string, momentId: string)
    requires l.grant.Some? && l.grant.value.Eligible(owner, momentId) && AllApproved(l.uploads, l.grant, owner)
    ensures forall u :: u in l.uploads ==>
              u.mediaId in l.grant.value.mediaIds && u.row == Media(owner, u.row.momentId, "applied", true, true)
    ensures forall id :: id in l.grant.value.mediaIds ==>
              && id in l.grant.value.table
              && var row := l.grant.value.table[id];
                 row.userId == owner && row.momentId == momentId && row.redactionState == "applied"
  {
    EachApproved(l.uploads, l.grant, owner);
  }

  lemma {:induction false} BookedSettles(l: Ledger, recorded: map<string, string>, paged: bool,
                                         mediaIds: seq<string>, owner: string, momentId: string)
    requires Booked(l, recorded, None, paged, mediaIds, owner, momentId)
    ensures Settled(l, mediaIds, owner, momentId)
    ensures forall id :: id in recorded ==> Sent(l.uploads)[id] >= 1
  {
    forall id
      ensures Sent(l.uploads)[id] <= l.lost[id] + l.unnamed[id] + 1
      ensures id in recorded ==> Sent(l.uploads)[id] >= 1
    {
      assert id in recorded && id !in Named(recorded) ==> id !in Unexplained(l, recorded);
    }
  }

  lemma {:induction false} BookedUpload(l: Ledger, recorded: map<string, string>, u: Upload,
                                        mediaIds: seq<string>, owner: string, momentId: string)
    requires Booked(l, recorded, None, false, mediaIds, owner, momentId)
    requires !Known(recorded, u.mediaId) && Approved(u, l.grant, owner)
    ensures Booked(l.AddUpload(u, true), recorded, Some(u.mediaId), false, mediaIds, owner, momentId)
    ensures Booked(l.AddUpload(u, false), recorded, None, false, mediaIds, owner, momentId)
  {
    UploadStep(l.uploads, l.grant, owner, u);
    assert Unexplained(l.AddUpload(u, true), recorded) == Unexplained(l, recorded);
    assert Unexplained(l.AddUpload(u, false), recorded) == Unexplained(l, recorded);
  }

  lemma {:induction false} BookedRecord(l: Ledger, recorded: map<string, string>, id: string, newId: string,
                                        mediaIds: seq<string>, owner: string, momentId: string)
    requires Booked(l, recorded, Some(id), false, mediaIds, owner, momentId) && !Known(recorded, id)
    ensures Booked(l.AddRecord(id, newId, false), recorded, None, false, mediaIds, owner, momentId)
    ensures Booked(l.AddRecord(id, newId, true), recorded[id := newId], None, false, mediaIds, owner, momentId)
  {
    BalancedForgotten(l, recorded, id, newId);
    BalancedRecord(l, recorded, id, newId);
  }

  lemma {:induction false} BalancedForgotten(l: Ledger, recorded: map<string, string>, id: string, newId: string)
    requires Balanced(l, recorded, Some(id)) && !Known(recorded, id)
    ensures Balanced(l.AddRecord(id, newId, false), recorded, None)
  {
    assert Unexplained(l.AddRecord(id, newId, false), recorded) == Unexplained(l, recorded);
  }

  lemma {:induction false} BalancedRecord(l: Ledger, recorded: map<string, string>, id: string, newId: string)
    requires Balanced(l, recorded, Some(id)) && !Known(recorded, id)
    ensures Balanced(l.AddRecord(id, newId, true), recorded[id := newId], None)
  {
    var after, l' := recorded[id := newId], l.AddRecord(id, newId, true);
    NamedOneMore(recorded, id, newId);
    forall x | x in Unexplained(l', after)
      ensures x in Unexplained(l, recorded)
    {
      assert id in l'.unnamed || newId != "";
    }
  }

  lemma {:induction false} NamedOneMore(recorded: map<string, string>, id: string, newId: string)
    requires !Known(recorded, id)
    ensures multiset(Named(recorded[id := newId])) ==
            multiset(Named(recorded)) + if newId == "" then multiset{} else multiset{id}
  {
    assert Named(recorded[id := newId]) == Named(recorded) + if newId == "" then {} else {id};
  }

  lemma {:induction false} BookedPage(l: Ledger, recorded: map<string, string>,
                                      mediaIds: seq<string>, owner: string, momentId: string)
    requires Booked(l, recorded, None, false, mediaIds, owner, momentId)
    ensures Booked(l.AddPage(true), recorded, None, true, mediaIds, owner, momentId)
    ensures Booked(l.AddPage(false), recorded, None, false, mediaIds, owner, momentId)
  {}

  lemma {:induction false} BookedPageLost(l: Ledger, recorded: map<string, string>,
                                          mediaIds: seq<string>, owner: string, momentId: string)
    requires Booked(l, recorded, None, true, mediaIds, owner, momentId)
    ensures Booked(l.(pagesLost := l.pagesLost + 1), recorded, None, false, mediaIds, owner, momentId)
  {}

  /** What was recorded is not uploaded again, and nothing more than once without an empty id to show for it. */
  ghost predicate OnceEach(before: Ledger, recorded: map<string, string>, after: Ledger) {
    forall id ::
      Sent(after.uploads)[id] + before.unnamed[id] <=
      Sent(before.uploads)[id] + after.unnamed[id] + if Known(recorded, id) then 0 else 1
  }

  lemma {:induction false} BalancedOnce(before: Ledger, recorded: map<string, string>, after: Ledger,
                                        recorded': map<string, string>)
    requires Balanced(before, recorded, None) && Balanced(after, recorded', None) && after.lost == before.lost
    ensures OnceEach(before, recorded, after)
  {
    forall id
      ensures Sent(after.uploads)[id] + before.unnamed[id] <=
              Sent(before.uploads)[id] + after.unnamed[id] + if Known(recorded, id) then 0 else 1
    {
      assert id in Named(recorded) <==> Known(recorded, id);
    }
  }

  /** Every approved file was uploaded. */
  ghost predicate Delivered(l: Ledger, mediaIds: seq<string>) {
    forall id :: id in mediaIds ==> Sent(l.uploads)[id] >= 1
  }

  /** What becomes of a call; a calm world returns from all of them. */
  method Happens(calm: bool) returns (fate: Fate)
    ensures calm ==> fate.Returned?
  {
    fate := *;
    if calm {
      fate := Returned;
    }
  }

  class ApprovedAction {
    const owner: string
    const momentId: string
    // The action row.
    var status: Status
    var result: Result
    var mediaIds: seq<string>
    // The media table, which other requests change at any time.
    var media: map<string, Media>
    /** What exists at the provider. */
    ghost var ledger: Ledger
    /** How every attempt so far ended. */
    ghost var attempts: seq<Outcome>

    predicate Running()
      reads this
    {
      status == Queued || status == Executing
    }

    /** Every approved file that has yet to be uploaded passes the worker's gate now. */
    predicate GatesPass()
      reads this
    {
      forall id :: id in mediaIds ==> Passes(result.uploads, media, owner, id)
    }

    /** A page id that a later attempt recognizes. */
    predicate HasPage()
      reads this
    {
      result.pageId.Some? && result.pageId.value != ""
    }

    /** Nothing was created before an approval; and nothing is created twice without a loss to show for it. */
    ghost predicate Valid()
      reads this
    {
      && (status == Proposed || status == Rejected ==>
            ledger.Empty() && result.pageId == None && result.uploads == map[])
      && (Running() ==>
            && (result.pageId.Some? ==> HasPage())
            && Booked(ledger, result.uploads, None, result.pageId.Some?, mediaIds, owner, momentId))
      && (status == Completed ==>
            && result.pageId.Some? && ledger.pages == 1 + ledger.pagesLost
            && Settled(ledger, mediaIds, owner, momentId))
      && (status == Failed ==> result.pageId == None && Settled(ledger, mediaIds, owner, momentId))
    }

    /** The row never carried a page id before it was completed, so the recovery branch is never taken. */
    ghost predicate Fresh()
      reads this
    {
      (result.pageId.Some? ==> status == Completed) && (status == Completed ==> Delivered(ledger, mediaIds))
    }

    /** At most one answer was lost for each attempt that did not finish. */
    ghost predicate Accounted()
      reads this
    {
      ledger.Losses() <= Unfinished(attempts)
    }

    /** A claimed attempt between two calls. */
    ghost predicate InAttempt()
      reads this
    {
      && status == Executing && result.pageId == None
      && Booked(ledger, result.uploads, None, false, mediaIds, owner, momentId)
    }

    lemma {:induction false} InAttemptIsValid()
      requires InAttempt()
      ensures Valid()
    {}

    /** Between a provider call that returned and the statement that records what it made. */
    ghost predicate UploadPending(id: string)
      reads this
    {
      && status == Executing && result.pageId == None && !Known(result.uploads, id)
      && Booked(ledger, result.uploads, Some(id), false, mediaIds, owner, momentId)
    }

    ghost predicate PagePending()
      reads this
    {
      && status == Executing && result.pageId == None
      && Booked(ledger, result.uploads, None, true, mediaIds, owner, momentId)
    }

    /** What any step of an attempt leaves alone. */
    twostate predicate Progress()
      reads this
    {
      Kept() && attempts == old(attempts)
    }

    /** What any attempt leaves alone. */
    twostate predicate Kept()
      reads this
    {
      && ledger.pages >= old(ledger.pages) && ledger.pagesLost >= old(ledger.pagesLost)
      && mediaIds == old(mediaIds) && ledger.grant == old(ledger.grant)
      && (!old(Running()) ==> status == old(status) && result == old(result) && ledger == old(ledger))
    }

    constructor (owner: string, momentId: string)
      ensures Valid() && Fresh() && status == Proposed && this.owner == owner && this.momentId == momentId
      ensures attempts == [] && Accounted()
    {
      this.owner, this.momentId := owner, momentId;
      status, result, mediaIds, media := Proposed, Result(map[], None, false), [], map[];
      ledger, attempts := Ledger(0, 0, [], multiset{}, multiset{}, None), [];
    }

    // -------------------------------------------------------------- approval

    /** Approve an external action. It succeeds exactly if the action is proposed, every requested media id
        is the user's own, of this action's moment and redacted, and the job was enqueued; then, and only
        then, there is a grant. A failed enqueue puts the action back. */
    method Approve(requested: seq<string>, connected: bool, queueAvailable: bool, enqueued: bool) returns (ok: bool)
      requires Valid()
      modifies this
      ensures Valid() && media == old(media) && result == old(result) && attempts == old(attempts)
      ensures ok <==> old(status) == Proposed && connected && queueAvailable && enqueued
                      && Grant(requested, media).Eligible(owner, momentId)
      ensures ok ==> status == Queued && mediaIds == requested
                     && ledger == old(ledger).(grant := Some(Grant(requested, media)))
      ensures !ok ==> status == old(status) && ledger == old(ledger)
                      && (mediaIds == old(mediaIds) || status == Proposed)
      ensures old(Fresh()) ==> Fresh()
    {
      ok := false;
      if !connected || !queueAvailable {
        return;
      }
      var eligible := forall id | id in requested :: Shareable(media, owner, id) && media[id].momentId == momentId;
      if !eligible {
        return;
      }
      if status != Proposed {
        return;
      }
      status, mediaIds := Queued, requested;
      if !enqueued {
        status := Proposed;
        return;
      }
      GrantOpens(ledger, Grant(requested, media), owner, momentId);
      ledger := ledger.(grant := Some(Grant(requested, media)));
      ok := true;
    }

    method Reject() returns (ok: bool)
      requires Valid()
      modifies this
      ensures Valid() && ledger == old(ledger) && attempts == old(attempts)
      ensures ok <==> old(status) == Proposed
      ensures status == if ok then Rejected else old(status)
      ensures old(Fresh()) ==> Fresh()
    {
      ok := status == Proposed;
      if ok {
        status := Rejected;
      }
    }

    // -------------------------------------------------------------- the worker

    /** Never clobbers a completed action. */
    method MarkActionFailed(calm: bool) returns (fate: Fate)
      requires Valid()
      modifies this
      ensures Valid() && Progress() && ledger == old(ledger) && media == old(media)
      ensures status == old(status) || (status == Failed && old(Running()))
      ensures result == if status == old(status) then old(result) else Result(map[], None, true)
      ensures fate.Returned? && old(Running()) ==> status == Failed
      ensures calm ==> fate.Returned?
    {
      fate := Happens(calm);
      if fate.Landed() && (status == Queued || status == Executing) {
        BookedSettles(ledger, result.uploads, result.pageId.Some?, mediaIds, owner, momentId);
        status, result := Failed, Result(map[], None, true);
      }
    }

    method Fail(calm: bool) returns (r: Outcome)
      requires Valid()
      modifies this
      ensures Valid() && Progress() && ledger == old(ledger) && media == old(media)
      ensures r == Terminal || r == Retry || r == Crashed
      ensures status == old(status) || (status == Failed && old(Running()))
      ensures result == if status == old(status) then old(result) else Result(map[], None, true)
      ensures r == Terminal && old(Running()) ==> status == Failed
      ensures calm ==> r == Terminal
    {
      var fate := MarkActionFailed(calm);
      return match fate
        case Returned => Terminal
        case Threw(_) => Retry
        case Died(_) => Crashed;
    }

    /** After a call that did not return: the process is gone, or a transient error is left to a retry, or the
        action fails. */
    method GiveUp(died: bool, mayRetry: bool, calm: bool) returns (r: Outcome)
      requires Valid()
      modifies this
      ensures Valid() && Progress() && ledger == old(ledger) && media == old(media)
      ensures r == Terminal || r == Retry || r == Crashed
      ensures status == old(status) || (status == Failed && old(Running()))
      ensures result == if status == old(status) then old(result) else Result(map[], None, true)
      ensures r == Terminal && old(Running()) ==> status == Failed
      ensures died ==> r == Crashed && status == old(status)
      ensures calm && !died && !mayRetry ==> r == Terminal
    {
      var transient: bool := *;
      if died {
        r := Crashed;
      } else if mayRetry && transient {
        r := Retry;
      } else {
        r := Fail(calm);
      }
    }

    /** The same in a claimed attempt. */
    method Abort(died: bool, mayRetry: bool, calm: bool) returns (r: Outcome)
      requires InAttempt()
      modifies this
      ensures Valid() && Progress() && ledger == old(ledger) && media == old(media)
      ensures r != Finished && r != Skipped && status != Completed && result.pageId == None
      ensures r == Terminal ==> status == Failed
      ensures calm && !died && !mayRetry ==> r == Terminal
    {
      InAttemptIsValid();
      r := GiveUp(died, mayRetry, calm);
    }

    /** Other requests change the media table between an attempt's steps; a calm world leaves it alone. */
    method OthersChangeMedia(calm: bool)
      modifies this`media
      ensures calm ==> media == old(media)
    {
      var changed := *;
      if !calm {
        media := changed;
      }
    }

    /** The upload call for the row that the gate read; it may take effect even when it throws or nobody is
        left to hear of it. */
    method CallUpload(id: string, ghost row: Media, calm: bool) returns (called: Fate)
      requires InAttempt() && id in mediaIds && !Known(result.uploads, id)
      requires Approved(Upload(id, row), ledger.grant, owner)
      modifies this`ledger
      ensures ledger ==
              if called.Landed() then old(ledger).AddUpload(Upload(id, row), called.Returned?) else old(ledger)
      ensures ledger.pages == old(ledger).pages && ledger.pagesLost == old(ledger).pagesLost
      ensures |ledger.lost| <= |old(ledger).lost| + 1 && (called.Returned? ==> ledger.lost == old(ledger).lost)
      ensures Progress()
      ensures if called.Returned? then UploadPending(id) else InAttempt()
      ensures calm ==> called.Returned?
    {
      BookedUpload(ledger, result.uploads, Upload(id, row), mediaIds, owner, momentId);
      called := Happens(calm);
      if called.Landed() {
        ledger := ledger.AddUpload(Upload(id, row), called.Returned?);
      }
    }

    /** The statement that stores the upload ids on the row. */
    method RecordUpload(id: string, uploadsById: map<string, string>, calm: bool) returns (wrote: Fate)
      requires UploadPending(id) && id in uploadsById && uploadsById == result.uploads[id := uploadsById[id]]
      modifies this`result, this`ledger
      ensures InAttempt()
      ensures ledger.pages == old(ledger.pages) && ledger.pagesLost == old(ledger.pagesLost)
      ensures ledger.grant == old(ledger.grant) && ledger.uploads == old(ledger.uploads)
      ensures ledger.lost == if wrote.Landed() then old(ledger.lost) else old(ledger.lost) + multiset{id}
      ensures ledger.unnamed ==
              old(ledger.unnamed) + if wrote.Landed() && uploadsById[id] == "" then multiset{id} else multiset{}
      ensures result == if wrote.Landed() then old(result).(uploads := uploadsById) else old(result)
      ensures calm ==> wrote.Returned?
    {
      BookedRecord(ledger, result.uploads, id, uploadsById[id], mediaIds, owner, momentId);
      wrote := Happens(calm);
      ledger := ledger.AddRecord(id, uploadsById[id], wrote.Landed());
      if wrote.Landed() {
        result := result.(uploads := uploadsById);
      }
    }

    /** Upload one approved media file, as the gate reads it now, and record its id before anything else. */
    method UploadOne(id: string, uploadsById: map<string, string>, calm: bool)
      returns (r: Option<Outcome>, uploadsById': map<string, string>, ghost row: Media)
      requires InAttempt()
      requires id in mediaIds && uploadsById == result.uploads && !Known(result.uploads, id)
      modifies this
      ensures Valid() && Progress()
      ensures ledger.pages == old(ledger.pages) && ledger.pagesLost == old(ledger.pagesLost)
      ensures |ledger.lost| <= |old(ledger.lost)| + 1
      ensures r.None? ==>
                && InAttempt() && uploadsById' == result.uploads && id in uploadsById'
                && uploadsById' == uploadsById[id := uploadsById'[id]]
                && ledger.lost == old(ledger.lost) && ledger.uploads == old(ledger.uploads) + [Upload(id, row)]
      ensures r.Some? ==> r.value != Finished && r.value != Skipped && status != Completed
      ensures calm ==> media == old(media)
      ensures calm ==> r == if old(ReadApprovedMedia(media, owner, id)) == Passed then None else Some(Terminal)
      ensures r == Some(Terminal) ==> status == Failed
    {
      uploadsById' := uploadsById;
      OthersChangeMedia(calm);
      r, row := ReadAndAudit(id, calm);
      if r.None? {
        OthersChangeMedia(calm);
        r, uploadsById' := UploadRead(id, row, uploadsById, calm);
      }
    }

    /** The gate, and the audit entry for what it lets through. */
    method ReadAndAudit(id: string, calm: bool) returns (r: Option<Outcome>, ghost row: Media)
      requires InAttempt() && id in mediaIds
      modifies this
      ensures Valid() && Progress() && ledger == old(ledger) && media == old(media)
      ensures r.None? ==> InAttempt() && result == old(result) && Approved(Upload(id, row), ledger.grant, owner)
      ensures r.None? ==> id in media && row == media[id] == Media(owner, row.momentId, "applied", true, true)
      ensures r.Some? ==> r.value != Finished && r.value != Skipped && status != Completed
      ensures calm ==> r == if ReadApprovedMedia(media, owner, id) == Passed then None else Some(Terminal)
      ensures r == Some(Terminal) ==> status == Failed
    {
      r := None;
      row := if id in media then media[id] else Media("", "", "", false, false);
      var passed := ReadApprovedMedia(media, owner, id) == Passed;
      var audited := Returned;
      if passed {
        audited := Happens(calm);
      }
      if !passed || !audited.Returned? {
        var failed := Abort(audited.Died?, false, calm);
        return Some(failed), row;
      }
      InAttemptIsValid();
    }

    /** The upload of what the gate read. */
    method UploadRead(id: string, ghost row: Media, uploadsById: map<string, string>, calm: bool)
      returns (r: Option<Outcome>, uploadsById': map<string, string>)
      requires InAttempt() && Approved(Upload(id, row), ledger.grant, owner)
      requires id in mediaIds && uploadsById == result.uploads && !Known(result.uploads, id)
      modifies this
      ensures Valid() && Progress() && media == old(media)
      ensures ledger.pages == old(ledger.pages) && ledger.pagesLost == old(ledger.pagesLost)
      ensures |ledger.lost| <= |old(ledger.lost)| + 1
      ensures r.None? ==>
                && InAttempt() && uploadsById' == result.uploads && id in uploadsById'
                && uploadsById' == uploadsById[id := uploadsById'[id]]
                && ledger.lost == old(ledger.lost) && ledger.uploads == old(ledger.uploads) + [Upload(id, row)]
      ensures r.Some? ==> r.value != Finished && r.value != Skipped && status != Completed
      ensures calm ==> r.None?
      ensures r == Some(Terminal) ==> status == Failed
    {
      uploadsById' := uploadsById;
      ghost var before := ledger;
      var called := CallUpload(id, row, calm);
      if called.Returned? {
        assert ledger == before.AddUpload(Upload(id, row), true);
        var newId: string := *;
        uploadsById' := uploadsById[id := newId];
        r := KeepUpload(id, uploadsById', calm);
      } else {
        var failed := Abort(called.Died?, true, calm);
        r := Some(failed);
      }
    }

    /** The upload id goes on the row before anything else happens. */
    method KeepUpload(id: string, uploadsById: map<string, string>, calm: bool) returns (r: Option<Outcome>)
      requires UploadPending(id) && id in uploadsById && uploadsById == result.uploads[id := uploadsById[id]]
      modifies this
      ensures Valid() && Progress() && media == old(media)
      ensures ledger.pages == old(ledger.pages) && ledger.pagesLost == old(ledger.pagesLost)
      ensures ledger.uploads == old(ledger.uploads) && |ledger.lost| <= |old(ledger.lost)| + 1
      ensures r.None? ==> InAttempt() && result.uploads == uploadsById && ledger.lost == old(ledger.lost)
      ensures r.Some? ==> r.value != Finished && r.value != Skipped && status != Completed
      ensures calm ==> r.None?
      ensures r == Some(Terminal) ==> status == Failed
    {
      var wrote := RecordUpload(id, uploadsById, calm);
      InAttemptIsValid();
      r := None;
      if !wrote.Returned? {
        var failed := Abort(wrote.Died?, false, calm);
        r := Some(failed);
      }
    }

    /** Every approved media file once, skipping those an earlier attempt already uploaded. */
    method UploadAll(calm: bool) returns (r: Option<Outcome>)
      requires InAttempt()
      modifies this
      ensures Valid() && Progress()
      ensures ledger.pages == old(ledger.pages) && ledger.pagesLost == old(ledger.pagesLost)
      ensures |ledger.lost| <= |old(ledger.lost)| + 1
      ensures r.None? ==> InAttempt() && Delivered(ledger, mediaIds)
      ensures r.None? ==> ledger.lost == old(ledger.lost) && OnceEach(old(ledger), old(result.uploads), ledger)
      ensures r.Some? ==> r.value != Finished && r.value != Skipped && status != Completed
      ensures calm ==> r == if old(GatesPass()) then None else Some(Terminal)
      ensures r == Some(Terminal) ==> status == Failed
    {
      var approved := mediaIds;
      var uploadsById := result.uploads;
      ghost var recorded := uploadsById;
      for i := 0 to |approved|
        invariant InAttempt() && Progress() && uploadsById == result.uploads && mediaIds == approved
        invariant ledger.pages == old(ledger.pages) && ledger.pagesLost == old(ledger.pagesLost)
        invariant ledger.lost == old(ledger.lost) && (calm ==> media == old(media))
        invariant forall id :: id in approved[..i] ==> id in uploadsById
        invariant calm ==> AllPassed(recorded, uploadsById, media, owner, approved[..i])
      {
        assert approved[..i + 1] == approved[..i] + [approved[i]];
        ghost var before := uploadsById;
        if approved[i] !in uploadsById || uploadsById[approved[i]] == "" {
          ghost var row;
          r, uploadsById, row := UploadOne(approved[i], uploadsById, calm);
          if r.Some? {
            return;
          }
        }
        if calm {
          PassedNext(recorded, before, uploadsById, media, owner, approved[..i], approved[i]);
        }
      }
      assert approved[..|approved|] == approved;
      BookedSettles(ledger, result.uploads, false, mediaIds, owner, momentId);
      BalancedOnce(old(ledger), old(result.uploads), ledger, result.uploads);
      return None;
    }

    /** The page call; like every call it may take effect unheard. */
    method CallCreatePage(calm: bool) returns (called: Fate)
      requires InAttempt()
      modifies this`ledger
      ensures ledger == if called.Landed() then old(ledger).AddPage(called.Returned?) else old(ledger)
      ensures if called.Returned? then PagePending() else InAttempt()
      ensures calm ==> called.Returned?
    {
      BookedPage(ledger, result.uploads, mediaIds, owner, momentId);
      called := Happens(calm);
      if called.Landed() {
        ledger := ledger.AddPage(called.Returned?);
      }
    }

    /** The page id lands in the very statement that completes the action. */
    method RecordPage(pageId: string, calm: bool) returns (wrote: Fate)
      requires PagePending()
      modifies this`status, this`result, this`ledger
      ensures if wrote.Landed() then Valid() && status == Completed else InAttempt()
      ensures ledger == if wrote.Landed() then old(ledger) else old(ledger).(pagesLost := old(ledger).pagesLost + 1)
      ensures result == if wrote.Landed() then Result(map[], Some(pageId), false) else old(result)
      ensures calm ==> wrote.Returned?
    {
      BookedSettles(ledger, result.uploads, true, mediaIds, owner, momentId);
      BookedPageLost(ledger, result.uploads, mediaIds, owner, momentId);
      wrote := Happens(calm);
      if wrote.Landed() {
        status, result := Completed, Result(map[], Some(pageId), false);
      } else {
        ledger := ledger.(pagesLost := ledger.pagesLost + 1);
      }
    }

    /** The page is created last, with everything attached. */
    method CreatePage(calm: bool) returns (r: Outcome)
      requires InAttempt()
      modifies this
      ensures Valid() && Progress() && media == old(media)
      ensures ledger.uploads == old(ledger.uploads) && ledger.lost == old(ledger.lost)
      ensures ledger.unnamed == old(ledger.unnamed)
      ensures ledger.pages <= old(ledger.pages) + 1 && ledger.pagesLost <= old(ledger.pagesLost) + 1
      ensures r == Finished ==>
                && status == Completed && ledger.pages == old(ledger.pages) + 1
                && ledger.pagesLost == old(ledger.pagesLost)
      ensures result.pageId.Some? ==> status == Completed
      ensures r != Skipped && (calm ==> r == Finished)
      ensures r == Terminal ==> status == Failed || status == Completed
    {
      var called := CallCreatePage(calm);
      if !called.Returned? {
        r := Abort(called.Died?, true, calm);
        return;
      }
      var pageId: string := *;
      r := KeepPage(pageId, calm);
    }

    /** The page id is recorded, which completes the action. */
    method KeepPage(pageId: string, calm: bool) returns (r: Outcome)
      requires PagePending()
      modifies this
      ensures Valid() && Progress() && media == old(media)
      ensures ledger == old(ledger) || ledger == old(ledger).(pagesLost := old(ledger).pagesLost + 1)
      ensures r == Finished ==> status == Completed && ledger == old(ledger)
      ensures result.pageId.Some? ==> status == Completed
      ensures r != Skipped && (calm ==> r == Finished)
      ensures r == Terminal ==> status == Failed || status == Completed
    {
      var wrote := RecordPage(pageId, calm);
      if !wrote.Landed() {
        InAttemptIsValid();
      }
      if !wrote.Returned? {
        r := GiveUp(wrote.Died?, false, calm);
        return;
      }
      // The audit entry; whatever happens to it, the action stays completed.
      var audited := Happens(calm);
      r := Finished;
      if !audited.Returned? {
        r := GiveUp(audited.Died?, false, calm);
      }
    }

    /** A claimed attempt: uploads first, the page last. */
    method RunClaimed(calm: bool) returns (r: Outcome)
      requires InAttempt()
      modifies this
      ensures Valid() && Progress()
      ensures ledger.pages <= old(ledger.pages) + 1 && ledger.Losses() <= old(ledger.Losses()) + 1
      ensures status == Completed ==> Delivered(ledger, mediaIds)
      ensures result.pageId.Some? ==> status == Completed
      ensures r == Finished ==> FinishedWell()
      ensures r != Skipped && (calm ==> r == if old(GatesPass()) then Finished else Terminal)
      ensures r == Terminal ==> status == Failed || (status == Completed && !calm)
    {
      // Connection, keyring, token and destination: any of them missing is terminal.
      var ready: bool, transient: bool := *, *;
      if (!ready || transient) && !calm {
        r := Abort(false, transient, calm);
        return;
      }
      var storeAvailable: bool := *;
      if |mediaIds| > 0 {
        if !storeAvailable && !calm {
          r := Abort(false, false, calm);
          return;
        }
        var uploaded := UploadAll(calm);
        if uploaded.Some? {
          return uploaded.value;
        }
      } else {
        BalancedOnce(ledger, result.uploads, ledger, result.uploads);
      }
      r := CreatePage(calm);
    }

    /** Completed, one page more and no answer lost; no recorded file was uploaded again. */
    twostate predicate FinishedWell()
      reads this
    {
      && status == Completed && ledger.pages == old(ledger.pages) + 1 && ledger.Losses() == old(ledger.Losses())
      && OnceEach(old(ledger), old(result.uploads), ledger)
    }

    /** Queued or executing becomes executing, and the audit log says so. */
    method Claim(calm: bool) returns (claimed: Fate)
      requires Valid() && Running() && result.pageId == None
      modifies this`status
      ensures Valid() && Running()
      ensures claimed.Returned? ==> InAttempt()
      ensures calm ==> claimed.Returned?
    {
      claimed := Happens(calm);
      if claimed.Landed() {
        status := Executing;
      }
      if claimed.Returned? {
        claimed := Happens(calm);
      }
    }

    /** One attempt, and how it ended. It creates at most one page, and none once a page id is on the row or
        unless the action was queued or executing; it loses at most one answer, and then it did not finish.
        One that finishes has uploaded every approved file, none of them again if it was recorded. An attempt
        in which no call fails finishes exactly if every approved file that has yet to be uploaded passes the
        gate (or a page is on the row), and otherwise the action has failed for good. */
    method ExecuteAction(calm: bool) returns (r: Outcome)
      requires Valid()
      modifies this
      ensures Valid() && Kept() && attempts == old(attempts) + [r]
      ensures old(Accounted()) ==> Accounted()
      ensures ledger.pages <= old(ledger.pages) + 1 && ledger.Losses() <= old(ledger.Losses()) + 1
      ensures r == Finished || r == Skipped ==> ledger.Losses() == old(ledger.Losses())
      ensures old(result.pageId).Some? ==> ledger == old(ledger)
      ensures old(status) == Completed ==> r == Finished
      ensures r == Skipped <==> old(status) == Proposed || old(status) == Failed || old(status) == Rejected
      ensures calm && old(Running()) ==> r == if old(HasPage()) || old(GatesPass()) then Finished else Terminal
      ensures r == Terminal ==> status == Failed || (status == Completed && !calm)
      ensures r == Finished ==> status == Completed && result.pageId.Some?
      ensures r == Finished && old(Running()) && !old(HasPage()) ==> FinishedWell() && Delivered(ledger, mediaIds)
      ensures old(Fresh()) ==> Fresh()
    {
      r := Execute(calm);
      UnfinishedOneMore(attempts, r);
      attempts := attempts + [r];
    }

    method Execute(calm: bool) returns (r: Outcome)
      requires Valid()
      modifies this
      ensures Valid() && Progress()
      ensures ledger.pages <= old(ledger.pages) + 1 && ledger.Losses() <= old(ledger.Losses()) + 1
      ensures r == Finished || r == Skipped ==> ledger.Losses() == old(ledger.Losses())
      ensures old(result.pageId).Some? ==> ledger == old(ledger)
      ensures old(status) == Completed ==> r == Finished
      ensures r == Skipped <==> old(status) == Proposed || old(status) == Failed || old(status) == Rejected
      ensures calm && old(Running()) ==> r == if old(HasPage()) || old(GatesPass()) then Finished else Terminal
      ensures r == Terminal ==> status == Failed || (status == Completed && !calm)
      ensures r == Finished ==> status == Completed && result.pageId.Some?
      ensures r == Finished && old(Running()) && !old(HasPage()) ==> FinishedWell() && Delivered(ledger, mediaIds)
      ensures old(Fresh()) ==> Fresh()
    {
      if status == Completed {
        return Finished;
      }
      if status != Queued && status != Executing {
        return Skipped;
      }
      // A previous attempt recorded the page already: finalize instead of creating another.
      if HasPage() {
        var finalized := Finalize(calm);
        return if finalized.Returned? then Finished else if finalized.Died? then Crashed else Retry;
      }
      r := Attempt(calm);
    }

    /** The recovery branch. */
    method Finalize(calm: bool) returns (finalized: Fate)
      requires Valid() && Running() && HasPage()
      modifies this`status
      ensures Valid() && status == if finalized.Landed() then Completed else old(status)
      ensures calm ==> finalized.Returned?
    {
      finalized := Happens(calm);
      BookedSettles(ledger, result.uploads, true, mediaIds, owner, momentId);
      if finalized.Landed() {
        status := Completed;
      }
    }

    /** An attempt at an action that is queued or executing and has no page. */
    method Attempt(calm: bool) returns (r: Outcome)
      requires Valid() && Running() && result.pageId == None
      modifies this
      ensures Valid() && Progress()
      ensures ledger.pages <= old(ledger.pages) + 1 && ledger.Losses() <= old(ledger.Losses()) + 1
      ensures status == Completed ==> Delivered(ledger, mediaIds)
      ensures result.pageId.Some? ==> status == Completed
      ensures r == Finished ==> FinishedWell()
      ensures r != Skipped && (calm ==> r == if old(GatesPass()) then Finished else Terminal)
      ensures r == Terminal ==> status == Failed || (status == Completed && !calm)
    {
      var claimed := Claim(calm);
      if claimed.Returned? {
        r := RunClaimed(calm);
      } else {
        r := if claimed.Died? then Crashed else Retry;
      }
    }
  }

  lemma {:induction false} GrantOpens(l: Ledger, g: Grant, owner: string, momentId: string)
    requires l.Empty() && g.Eligible(owner, momentId)
    ensures Booked(l.(grant := Some(g)), map[], None, false, g.mediaIds, owner, momentId)
  {
    assert Named(map[]) == {} && Unexplained(l.(grant := Some(g)), map[]) == {};
  }

  /** MAIN: whatever anyone does in whatever order. Nothing exists at the provider before an approval;
      every upload is drawn from the approved list, of the action's moment, and was the user's own and
      redacted when the gate read it; each attempt that does not finish loses at most one answer, so there
      is at most one page, and one upload of each file, more than attempts that did not finish (and uploads
      answered without an id); and a page id is on the row only when it is completed, with every approved
      file delivered. */
  method AnyRun(a: ApprovedAction, rounds: nat)
    requires a.Valid() && a.Fresh() && a.status == Proposed
    modifies a
    ensures a.Valid() && a.Fresh()
    ensures old(a.attempts) <= a.attempts && |a.attempts| <= |old(a.attempts)| + rounds
    ensures a.ledger.Losses() <= Unfinished(a.attempts)
    ensures a.ledger.pages <= 1 + Unfinished(a.attempts)
    ensures forall id :: Sent(a.ledger.uploads)[id] <= 1 + Unfinished(a.attempts) + a.ledger.unnamed[id]
    ensures a.ledger.grant.None? ==> a.ledger.Empty()
    ensures a.ledger.grant.Some? ==> a.ledger.grant.value.Eligible(a.owner, a.momentId)
    ensures forall u :: u in a.ledger.uploads ==> Approved(u, a.ledger.grant, a.owner)
    ensures a.result.pageId.Some? <==> a.status == Completed
    ensures a.status == Completed ==>
              a.ledger.pages == 1 + a.ledger.pagesLost && Delivered(a.ledger, a.mediaIds)
  {
    for i := 0 to rounds
      invariant a.Valid() && a.Fresh() && a.Accounted()
      invariant old(a.attempts) <= a.attempts && |a.attempts| <= |old(a.attempts)| + i
    {
      AnyStep(a);
    }
    RunBounds(a);
  }

  lemma {:induction false} RunBounds(a: ApprovedAction)
    requires a.Valid() && a.Accounted()
    ensures a.ledger.pages <= 1 + Unfinished(a.attempts)
    ensures forall id :: Sent(a.ledger.uploads)[id] <= 1 + Unfinished(a.attempts) + a.ledger.unnamed[id]
    ensures a.ledger.grant.None? ==> a.ledger.Empty()
    ensures a.ledger.grant.Some? ==> a.ledger.grant.value.Eligible(a.owner, a.momentId)
    ensures forall u :: u in a.ledger.uploads ==> Approved(u, a.ledger.grant, a.owner)
  {
    if !a.ledger.Empty() {
      if a.Running() {
        BookedSettles(a.ledger, a.result.uploads, a.result.pageId.Some?, a.mediaIds, a.owner, a.momentId);
      }
      EachApproved(a.ledger.uploads, a.ledger.grant, a.owner);
      forall id
        ensures Sent(a.ledger.uploads)[id] <= 1 + Unfinished(a.attempts) + a.ledger.unnamed[id]
      {
        assert id in Sent(a.ledger.uploads) ==> id !in Excess(a.ledger);
        CountWithinSize(a.ledger.lost, id);
      }
    }
  }

  /** One thing that can happen to an action; only an attempt is recorded as one, and only it loses answers. */
  method AnyStep(a: ApprovedAction)
    requires a.Valid() && a.Fresh()
    modifies a
    ensures a.Valid() && a.Fresh() && (old(a.Accounted()) ==> a.Accounted())
    ensures a.attempts == old(a.attempts)
            || (|a.attempts| == |old(a.attempts)| + 1 && Init(a.attempts) == old(a.attempts))
    ensures a.attempts == old(a.attempts) ==> a.ledger.(grant := None) == old(a.ledger).(grant := None)
    ensures old(a.ledger.grant).Some? ==> a.ledger.grant == old(a.ledger.grant)
  {
    var choice: int := *;
    if choice == 0 {
      var requested: seq<string>, connected: bool, queueAvailable: bool, enqueued: bool := *, *, *, *;
      var ok := a.Approve(requested, connected, queueAvailable, enqueued);
    } else if choice == 1 {
      var ok := a.Reject();
    } else if choice == 2 {
      var fate := a.MarkActionFailed(false);
    } else if choice == 3 {
      a.media := *;
    } else {
      var calm: bool := *;
      var r := a.ExecuteAction(calm);
    }
  }
}
