/** The basemap columns of one `projects` row, partial updates to them, and
    the parser that turns an answer of the tilepack API into a status. */
module BasemapRow {
  import opened Text
  import opened Wording

  /** `basemap_status`; a NULL or blank column is `Unset`. */
  datatype GenStatus = Unset | Searching | Generating | Ready | Failed

  /** `basemap_attach_status`; a NULL or empty column is `NoAttach`. */
  datatype AttachStatus = NoAttach | Idle | PendingAutostart | InProgress | Attached | AttachFailed

  datatype Row = Row(
    item: Option<string>,
    status: GenStatus,
    url: Option<string>,
    attach: AttachStatus,
    published: bool,
    qfield: bool)

  /** A `ProjectUpdate`: a field that is `None` is dropped before the SQL is
      built, so it leaves its column as it was. */
  datatype Patch = Patch(
    item: Option<string> := None,
    status: Option<GenStatus> := None,
    url: Option<string> := None,
    attach: Option<AttachStatus> := None)

  function Apply(row: Row, p: Patch): Row {
    row.(item := if p.item.Some? then p.item else row.item,
         status := if p.status.Some? then p.status.value else row.status,
         url := if p.url.Some? then p.url else row.url,
         attach := if p.attach.Some? then p.attach.value else row.attach)
  }

  /** A row in `ready` state can be downloaded from. */
  predicate RowOk(row: Row) {
    row.status == Ready ==> NonEmpty(row.url)
  }

  predicate ReadyWithUrl(row: Row) {
    row.status == Ready && NonEmpty(row.url)
  }

  /** The guard of the raw SQL claim. */
  predicate Claimable(row: Row) {
    row.qfield && row.published && Blank(row.item) && row.status in {Unset, Generating, Failed}
  }

  /** The claim writes NULL into the URL column itself, past the dropping. */
  function Claimed(row: Row): Row {
    row.(status := Generating, url := None, attach := PendingAutostart)
  }

  // ---- upstream answers ----

  datatype Payload = Payload(
    url: Option<string>,
    downloadUrl: Option<string>,
    status: Option<string>,
    state: Option<string>)

  datatype Answer = Answer(status: GenStatus, url: Option<string>)

  const READY_STATES: set<string> := {"ready", "completed", "success"}
  const RUNNING_STATES: set<string> := {"queued", "running", "processing", "generating"}

  /** The status and URL read from a response, or `None` when it raises. */
  function ParseTilepackStatus(code: int, payload: Payload): Option<Answer> {
    var directUrl := Or(payload.url, payload.downloadUrl);
    var chosen := Or(payload.status, payload.state);
    var state := if NonEmpty(chosen) then Lower(chosen.value) else "";
    if code == 200 then
      Some(if NonEmpty(directUrl) then Answer(Ready, directUrl) else Answer(Generating, None))
    else if code == 202 then Some(Answer(Generating, None))
    else if code == 429 then Some(Answer(Generating, None))
    else if code >= 400 then None
    else if state in READY_STATES then
      Some(if NonEmpty(directUrl) then Answer(Ready, directUrl) else Answer(Generating, None))
    else if state in RUNNING_STATES then Some(Answer(Generating, None))
    else Some(Answer(Failed, None))
  }

  /** An answer says `ready` exactly when it carries a URL to download. */
  predicate AnswerOk(a: Answer) {
    && a.status in {Ready, Generating, Failed}
    && (a.status == Ready <==> NonEmpty(a.url))
    && (a.url.Some? ==> a.url.value != "")
  }

  lemma ParsedAnswersAreOk(code: int, payload: Payload)
    ensures var a := ParseTilepackStatus(code, payload);
            && (a.Some? ==> AnswerOk(a.value))
            && (a.None? <==> code >= 400 && code != 429)
  {
  }

  // ---- the answer told by its words ----

  /** The download URL an answer gives: `url` before `download_url`. */
  ghost predicate GivesUrl(payload: Payload, url: string) {
    Given(payload.url, url) || (!HasText(payload.url) && Given(payload.downloadUrl, url))
  }

  ghost predicate HasText(o: Option<string>) {
    exists text: string :: Given(o, text)
  }

  /** The state an answer is in: `status` before `state`, in any case. */
  ghost predicate StateSays(payload: Payload, word: string) {
    if HasText(payload.status) then Says(payload.status.value, word)
    else HasText(payload.state) && Says(payload.state.value, word)
  }

  ghost predicate SaysReady(payload: Payload) {
    StateSays(payload, "ready") || StateSays(payload, "completed") || StateSays(payload, "success")
  }

  ghost predicate SaysRunning(payload: Payload) {
    || StateSays(payload, "queued") || StateSays(payload, "running")
    || StateSays(payload, "processing") || StateSays(payload, "generating")
  }

  ghost predicate NoUrl(payload: Payload) {
    forall url: string :: !GivesUrl(payload, url)
  }

  /** What every answer means. 202, 429 and a 200 without a URL are still
      generating, a 200 with one is ready; from 400 on the call raises; any
      other code is decided by the state's words. */
  lemma AnswerLaw(code: int, payload: Payload)
    ensures var a := ParseTilepackStatus(code, payload);
            && (code == 202 || code == 429 ==> a == Some(Answer(Generating, None)))
            && (code == 200 && NoUrl(payload) ==> a == Some(Answer(Generating, None)))
            && (forall url :: code == 200 && GivesUrl(payload, url) ==> a == Some(Answer(Ready, Some(url))))
            && (code >= 400 && code != 429 ==> a == None)
    ensures var a := ParseTilepackStatus(code, payload);
            code < 400 && code != 200 && code != 202 ==>
              && (forall url :: SaysReady(payload) && GivesUrl(payload, url) ==> a == Some(Answer(Ready, Some(url))))
              && (SaysReady(payload) && NoUrl(payload) ==> a == Some(Answer(Generating, None)))
              && (!SaysReady(payload) && SaysRunning(payload) ==> a == Some(Answer(Generating, None)))
              && (!SaysReady(payload) && !SaysRunning(payload) ==> a == Some(Answer(Failed, None)))
  {
    hide Lower;
    GivenIs(payload.url);
    GivenIs(payload.downloadUrl);
    GivenIs(payload.status);
    GivenIs(payload.state);
    StateIs(payload);
    var direct := Or(payload.url, payload.downloadUrl);
    if NonEmpty(direct) { assert GivesUrl(payload, direct.value); }
  }

  lemma GivenIs(o: Option<string>)
    ensures HasText(o) <==> NonEmpty(o)
    ensures forall text: string :: Given(o, text) ==> o == Some(text)
  {
    if NonEmpty(o) { assert Given(o, o.value); }
  }

  lemma StateIs(payload: Payload)
    ensures var chosen := Or(payload.status, payload.state);
            var state := if NonEmpty(chosen) then Lower(chosen.value) else "";
            (SaysReady(payload) <==> state in READY_STATES) && (SaysRunning(payload) <==> state in RUNNING_STATES)
  {
    hide Lower, Says;
    GivenIs(payload.status);
    GivenIs(payload.state);
    var chosen := Or(payload.status, payload.state);
    if NonEmpty(chosen) {
      StateWords(chosen.value);
    }
  }

  lemma StateWords(text: string)
    ensures Lower(text) in READY_STATES <==> Says(text, "ready") || Says(text, "completed") || Says(text, "success")
    ensures Lower(text) in RUNNING_STATES <==>
      Says(text, "queued") || Says(text, "running") || Says(text, "processing") || Says(text, "generating")
  {
    hide Lower, Says;
    LowerIs(text, "ready");
    LowerIs(text, "completed");
    LowerIs(text, "success");
    LowerIs(text, "queued");
    LowerIs(text, "running");
    LowerIs(text, "processing");
    LowerIs(text, "generating");
  }
}
