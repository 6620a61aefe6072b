/** The older single-repository web client (public/script.js): a page
    object that lists the stashes of the server's repository, shows one
    stash, applies or drops the selected one and shows the working-tree
    status. What each `fetch` gave back is a parameter. */
module LegacyClient {
  import opened Text
  import opened Domain

  /** What a `fetch(...).then(r => r.json())` gave: the parsed body, or a
      rejection (network failure or a body that is not JSON). */
  datatype Fetched<+T> = Body(body: T) | NetworkError

  /** The body `/api/status` answers with: an `{error}` object, or the
      serialised status summary. Lists are given by their lengths (`None`
      when absent); serialising drops the summary's methods, `isClean`
      among them. */
  datatype StatusBody =
    | ErrorBody(error: string)
    | SummaryBody(current: string, staged: Option<nat>, modified: Option<nat>, notAdded: Option<nat>,
                  deleted: Option<nat>, fileCount: nat)

  /** `list?.length || 0`. */
  function CountOf(length: Option<nat>): nat {
    if length.Some? then length.value else 0
  }

  /** The status text for a summary and its cleanliness, after `.trim()`
      removed the template's surrounding line breaks. */
  function StatusText(summary: StatusBody, clean: bool): (text: string)
    requires summary.SummaryBody?
    ensures |text| > 8 && text[..8] == "Branch: "
  {
    "Branch: " + (OrElse(summary.current, "unknown")
    + "\nStaged files: " + NatToString(CountOf(summary.staged))
    + "\nModified files: " + NatToString(CountOf(summary.modified))
    + "\nUntracked files: " + NatToString(CountOf(summary.notAdded))
    + "\nDeleted files: " + NatToString(CountOf(summary.deleted))
    + "\n\nWorking directory: " + (if clean then "Clean ✅" else "Has changes ⚠️"))
  }

  /** The text ends with the clean mark exactly when the tree is clean. */
  lemma StatusTextTellsCleanliness(summary: StatusBody, clean: bool)
    requires summary.SummaryBody?
    ensures var text := StatusText(summary, clean);
      text[|text| - 1] == (if clean then '✅' else '️')
  {
  }

  const StatusFailure := "Failed to load repository status"

  /** `renderStatus(status)` as written: an error is shown verbatim; for
      anything else the text calls `status.isClean()`, which a parsed body
      does not have, so rendering throws (`None`). */
  function RenderStatusAsWritten(body: StatusBody): (shown: Option<string>)
    ensures shown.Some? <==> body.ErrorBody? && body.error != ""
    ensures shown.Some? ==> shown.value == body.error
  {
    if body.ErrorBody? && Truthy(body.error) then Some(body.error) else None
  }

  /** `loadStatus()` as written: a throw while fetching or rendering is
      caught and the failure text is rendered instead. */
  function LoadStatusAsWritten(fetched: Fetched<StatusBody>): (text: string)
    ensures fetched.NetworkError? ==> text == StatusFailure
    ensures fetched.Body? && fetched.body.ErrorBody? ==> text == OrElse(fetched.body.error, StatusFailure)
    ensures text != StatusFailure ==> fetched.Body? && fetched.body.ErrorBody? && text == fetched.body.error
  {
    match fetched
    case NetworkError => StatusFailure
    case Body(body) =>
      var shown := RenderStatusAsWritten(body);
      if shown.Some? then shown.value else StatusFailure
  }

  /** Whatever summary the server sends, the page shows the failure text. */
  lemma SummaryNeverShown(summary: StatusBody)
    requires summary.SummaryBody?
    ensures LoadStatusAsWritten(Body(summary)) == StatusFailure
  {
  }

  /** `loadStatus()` deciding cleanliness from the summary's data, as the
      summary's own `isClean()` does: no changed files. */
  function LoadStatus(fetched: Fetched<StatusBody>): (text: string)
    ensures fetched.Body? && fetched.body.SummaryBody? ==>
      text == StatusText(fetched.body, fetched.body.fileCount == 0)
    ensures fetched.NetworkError? ==> text == StatusFailure
    ensures fetched.Body? && fetched.body.ErrorBody? ==> text == OrElse(fetched.body.error, StatusFailure)
  {
    match fetched
    case NetworkError => StatusFailure
    case Body(ErrorBody(error)) => OrElse(error, StatusFailure)
    case Body(summary) => StatusText(summary, summary.fileCount == 0)
  }

  /** One card of the stash list. */
  datatype Card = Card(title: string, hash: string, message: string, date: string)

  /** The card of the stash at `index`: titled with its position, at most
      eight characters of the hash, and fallbacks for a missing hash,
      message or date. */
  function CardOf(index: nat, stash: Stash): (card: Card)
    ensures card.title == "Stash #" + NatToString(index)
    ensures stash.hash == "" ==> card.hash == "unknown"
    ensures stash.hash != "" ==> card.hash == stash.hash[..if |stash.hash| < 8 then |stash.hash| else 8]
    ensures stash.message != "" ==> card.message == stash.message
    ensures stash.message == "" ==> card.message == "No message"
    ensures stash.date != "" ==> card.date == stash.date
    ensures stash.date == "" ==> card.date == "Unknown date"
  {
    Card("Stash #" + NatToString(index),
         if stash.hash == "" then "unknown" else if |stash.hash| <= 8 then stash.hash else stash.hash[..8],
         OrElse(stash.message, "No message"), OrElse(stash.date, "Unknown date"))
  }

  function CardsFrom(stashes: seq<Stash>, from: nat): (cards: seq<Card>)
    ensures |cards| == |stashes|
    ensures forall k :: 0 <= k < |cards| ==> cards[k] == CardOf(from + k, stashes[k])
    decreases |stashes|
  {
    if |stashes| == 0 then [] else [CardOf(from, stashes[0])] + CardsFrom(stashes[1..], from + 1)
  }

  /** `renderStashes()`: one card per stash, in order, each the card of
      its position. */
  function Cards(stashes: seq<Stash>): (cards: seq<Card>)
    ensures |cards| == |stashes|
    ensures forall k :: 0 <= k < |cards| ==> cards[k] == CardOf(k, stashes[k])
  {
    CardsFrom(stashes, 0)
  }

  /** The page object of public/script.js. Its status text comes from the
      corrected `LoadStatus`; the code as written shows the failure text for
      every summary, which `LoadStatusAsWritten` and `SummaryNeverShown`
      record. */
  class GitStashElection {
    var selectedStash: Option<nat>
    var stashes: seq<Stash>
    /** Whether the apply and drop buttons are enabled. */
    var actionsEnabled: bool
    var details: string
    var statusText: string
    /** The last notification shown. */
    var notice: Option<Notification>

    /** A selected stash always has its buttons enabled. */
    ghost predicate Valid()
      reads this
    {
      selectedStash.Some? ==> actionsEnabled
    }

    /** The constructor's own assignments; `init()`'s loads are
        `LoadStashes` and `LoadStatusText`. */
    constructor(actionsEnabled: bool, details: string, statusText: string)
      ensures Valid()
      ensures selectedStash.None? && stashes == []
      ensures this.actionsEnabled == actionsEnabled && this.details == details && this.statusText == statusText
      ensures notice.None?
    {
      selectedStash := None;
      stashes := [];
      this.actionsEnabled := actionsEnabled;
      this.details := details;
      this.statusText := statusText;
      notice := None;
    }

    /** `showNotification(message, type)`. */
    method ShowNotification(message: string, kind: string)
      modifies this
      ensures notice == Some(Notification(message, kind))
      ensures selectedStash == old(selectedStash) && stashes == old(stashes) && actionsEnabled == old(actionsEnabled)
      ensures details == old(details) && statusText == old(statusText)
    {
      notice := Some(Notification(message, kind));
    }

    /** `loadStashes()`: the body's `all` list, or none when the body has
        none (an error body); a rejected fetch keeps the list and notifies. */
    method LoadStashes(fetched: Fetched<Option<seq<Stash>>>)
      requires Valid()
      modifies this
      ensures Valid()
      ensures fetched.Body? ==> stashes == (if fetched.body.Some? then fetched.body.value else []) && notice == old(notice)
      ensures fetched.NetworkError? ==>
        stashes == old(stashes) && notice == Some(Notification("Failed to load stashes", "error"))
      ensures selectedStash == old(selectedStash) && actionsEnabled == old(actionsEnabled)
      ensures details == old(details) && statusText == old(statusText)
    {
      match fetched {
        case Body(all) =>
          stashes := if all.Some? then all.value else [];
        case NetworkError =>
          ShowNotification("Failed to load stashes", "error");
      }
    }

    /** `loadStatus()`. */
    method LoadStatusText(fetched: Fetched<StatusBody>)
      requires Valid()
      modifies this
      ensures Valid()
      ensures statusText == LoadStatus(fetched)
      ensures selectedStash == old(selectedStash) && stashes == old(stashes) && actionsEnabled == old(actionsEnabled)
      ensures details == old(details) && notice == old(notice)
    {
      statusText := LoadStatus(fetched);
    }

    /** `selectStash(index)`: selects, enables the buttons and shows the
        content, or a fallback when the body has none or the fetch failed. */
    method SelectStash(index: nat, fetched: Fetched<string>)
      requires Valid()
      modifies this
      ensures Valid()
      ensures selectedStash == Some(index) && actionsEnabled
      ensures details == match fetched
        case Body(content) => OrElse(content, "No content available")
        case NetworkError => "Failed to load stash content"
      ensures stashes == old(stashes) && statusText == old(statusText) && notice == old(notice)
    {
      selectedStash := Some(index);
      actionsEnabled := true;
      match fetched {
        case Body(content) => details := OrElse(content, "No content available");
        case NetworkError => details := OrElse("Failed to load stash content", "No content available");
      }
    }

    /** `applyStash(index)`: after a confirmed success the status is
        reloaded; failures only notify. The selection is kept. */
    method ApplyStash(index: nat, confirmed: bool, reply: Reply<string>, status: Fetched<StatusBody>)
      requires Valid()
      modifies this
      ensures Valid()
      ensures !confirmed ==>
        notice == old(notice) && statusText == old(statusText)
      ensures confirmed ==> notice == Some(match reply
        case Success(message) => Notification(message, "success")
        case Failure(e) => Notification(OrElse(e, "Failed to apply stash"), "error")
        case Thrown(_) => Notification("Failed to apply stash", "error"))
      ensures statusText == if confirmed && reply.Success? then LoadStatus(status) else old(statusText)
      ensures selectedStash == old(selectedStash) && stashes == old(stashes)
      ensures actionsEnabled == old(actionsEnabled) && details == old(details)
    {
      if !confirmed {
        return;
      }
      match reply {
        case Success(message) =>
          ShowNotification(message, "success");
          LoadStatusText(status);
        case Failure(e) =>
          ShowNotification(OrElse(e, "Failed to apply stash"), "error");
        case Thrown(_) =>
          ShowNotification("Failed to apply stash", "error");
      }
    }

    /** `dropStash(index)`: a confirmed success clears the selection,
        disables the buttons, resets the details and reloads the list. */
    method DropStash(index: nat, confirmed: bool, reply: Reply<string>, reload: Fetched<Option<seq<Stash>>>)
      requires Valid()
      modifies this
      ensures Valid()
      ensures confirmed && reply.Success? ==>
        && selectedStash.None? && !actionsEnabled
        && details == "Select a stash to view its contents"
        && stashes == (match reload
             case Body(all) => if all.Some? then all.value else []
             case NetworkError => old(stashes))
        && notice == Some(if reload.NetworkError? then Notification("Failed to load stashes", "error")
                          else Notification(reply.value, "success"))
      ensures !(confirmed && reply.Success?) ==>
        && selectedStash == old(selectedStash) && actionsEnabled == old(actionsEnabled)
        && details == old(details) && stashes == old(stashes)
      ensures confirmed && reply.Failure? ==> notice == Some(Notification(OrElse(reply.error, "Failed to drop stash"), "error"))
      ensures confirmed && reply.Thrown? ==> notice == Some(Notification("Failed to drop stash", "error"))
      ensures !confirmed ==> notice == old(notice)
      ensures statusText == old(statusText)
    {
      if !confirmed {
        return;
      }
      match reply {
        case Success(message) =>
          ShowNotification(message, "success");
          selectedStash := None;
          actionsEnabled := false;
          details := "Select a stash to view its contents";
          LoadStashes(reload);
        case Failure(e) =>
          ShowNotification(OrElse(e, "Failed to drop stash"), "error");
        case Thrown(_) =>
          ShowNotification("Failed to drop stash", "error");
      }
    }

    /** The apply button's handler: nothing happens without a selection. */
    method OnApplyClick(confirmed: bool, reply: Reply<string>, status: Fetched<StatusBody>) returns (called: bool)
      requires Valid()
      modifies this
      ensures Valid()
      ensures called == old(selectedStash).Some?
      ensures !called ==> notice == old(notice) && statusText == old(statusText) && details == old(details)
    {
      called := selectedStash.Some?;
      if called {
        ApplyStash(selectedStash.value, confirmed, reply, status);
      }
    }

    /** The drop button's handler: nothing happens without a selection. */
    method OnDropClick(confirmed: bool, reply: Reply<string>, reload: Fetched<Option<seq<Stash>>>) returns (called: bool)
      requires Valid()
      modifies this
      ensures Valid()
      ensures called == old(selectedStash).Some?
      ensures !called ==> notice == old(notice) && stashes == old(stashes) && details == old(details)
    {
      called := selectedStash.Some?;
      if called {
        DropStash(selectedStash.value, confirmed, reply, reload);
      }
    }
  }
}
