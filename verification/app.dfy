/**
 * The application shell: the audit state and how uploads, key setup, purge
 * and the two storage effects change it. Browser storage is a map from key to
 * what `JSON.parse` makes of the stored text; cookies are the header text
 * read from `document.cookie` and the assignments written back to it.
 */
module App {
  import opened Wrappers
  import opened Strings
  import opened Types
  import Json
  import GeminiService

  const STORAGE_KEY := "voxaudit_pro_v3_final"
  const UNEXPECTED_ERROR := "An unexpected error occurred during analysis."
  /** Appended to a cookie's name to expire it. */
  const COOKIE_EXPIRY := "=;expires=Thu, 01 Jan 1970 00:00:00 GMT;path=/"

  /** What the text stored under a key turns into when parsed: the empty
      string (skipped before parsing), an array of records, some other value,
      or a syntax error. */
  datatype Stored = Blank | ArrayOf(records: seq<AuditRecord>) | NonArray | Unparseable

  function Initial(): AuditState {
    AuditState([], false, None)
  }

  function Lookup(store: map<string, Stored>): Option<Stored> {
    if STORAGE_KEY in store then Some(store[STORAGE_KEY]) else None
  }

  // ---------------------------------------------------------------------------
  // The state updates, one per `setState` call.
  // ---------------------------------------------------------------------------

  /** The hydrate effect's update: the stored list replaces `audits` only when
      the stored text parses to an array. */
  function Hydrated(s: AuditState, saved: Option<Stored>): AuditState {
    match saved
    case Some(ArrayOf(records)) => s.(audits := records)
    case _ => s
  }

  /** The hydrate effect's storage side: a syntax error removes the key. */
  function HydratedStore(store: map<string, Stored>): map<string, Stored> {
    match Lookup(store)
    case Some(Unparseable) => store - {STORAGE_KEY}
    case _ => store
  }

  /** The save effect: the whole list is written when it is not empty. */
  function Saved(store: map<string, Stored>, audits: seq<AuditRecord>): map<string, Stored> {
    if |audits| > 0 then store[STORAGE_KEY := ArrayOf(audits)] else store
  }

  function Started(s: AuditState): AuditState {
    s.(isAnalyzing := true, error := None)
  }

  function Succeeded(s: AuditState, record: AuditRecord): AuditState {
    s.(audits := [record] + s.audits, isAnalyzing := false)
  }

  /** `err.message || "An unexpected error occurred during analysis."`. */
  function Failed(s: AuditState, message: string): AuditState {
    s.(isAnalyzing := false, error := Some(if message != "" then message else UNEXPECTED_ERROR))
  }

  /** How an upload that got a file ends: with a record or a message. */
  function Finished(s: AuditState, outcome: Result<AuditRecord, string>): AuditState {
    match outcome
    case Success(record) => Succeeded(s, record)
    case Failure(message) => Failed(s, message)
  }

  // ---------------------------------------------------------------------------
  // What the updates promise.
  // ---------------------------------------------------------------------------

  /** An upload with a file marks the analysis pending, clears the error and
      keeps the list. */
  lemma StartKeepsAudits(s: AuditState)
    ensures Started(s).audits == s.audits
    ensures Started(s).isAnalyzing && Started(s).error.None?
  {
  }

  /** Success prepends exactly one record and keeps the older ones, in order,
      behind it. */
  lemma SuccessPrependsOne(s: AuditState, record: AuditRecord)
    ensures var t := Succeeded(s, record);
      && |t.audits| == |s.audits| + 1
      && t.audits[0] == record
      && t.audits[1..] == s.audits
      && !t.isAnalyzing
      && t.error == s.error
  {
    var t := Succeeded(s, record);
    assert t.audits[1..] == s.audits;
  }

  /** Failure keeps the list and always leaves a non-empty message. */
  lemma FailureKeepsAudits(s: AuditState, message: string)
    ensures var t := Failed(s, message);
      && t.audits == s.audits
      && !t.isAnalyzing
      && t.error.Some? && t.error.value != ""
      && (message != "" ==> t.error == Some(message))
      && (message == "" ==> t.error == Some(UNEXPECTED_ERROR))
  {
  }

  /** A full upload cycle ends not pending; a success leaves no error and a
      failure leaves the list as it was. */
  lemma UploadCycle(s: AuditState, outcome: Result<AuditRecord, string>)
    ensures var t := Finished(Started(s), outcome);
      && !t.isAnalyzing
      && (outcome.Success? ==> t.error.None? && t.audits == [outcome.value] + s.audits)
      && (outcome.Failure? ==> t.error.Some? && t.audits == s.audits)
  {
  }

  /** Reloading after a save restores the whole list and leaves the store as
      the save left it. */
  lemma SaveThenReload(store: map<string, Stored>, audits: seq<AuditRecord>)
    requires |audits| > 0
    ensures var saved := Saved(store, audits);
      && Hydrated(Initial(), Lookup(saved)) == Initial().(audits := audits)
      && HydratedStore(saved) == saved
      && Saved(HydratedStore(saved), Hydrated(Initial(), Lookup(saved)).audits) == saved
  {
  }

  /** An empty list is never written, so it cannot overwrite a stored one. */
  lemma EmptyListNotSaved(store: map<string, Stored>)
    ensures Saved(store, []) == store
  {
  }

  /** Hydration on each kind of stored content: only an array changes the
      list; only a syntax error removes the key; a non-array value stays. */
  lemma HydrationCases(s: AuditState, store: map<string, Stored>)
    ensures Lookup(store).None? ==> Hydrated(s, Lookup(store)) == s && HydratedStore(store) == store
    ensures Lookup(store) == Some(Blank) ==> Hydrated(s, Lookup(store)) == s && HydratedStore(store) == store
    ensures Lookup(store) == Some(NonArray) ==> Hydrated(s, Lookup(store)) == s && HydratedStore(store) == store
    ensures Lookup(store) == Some(Unparseable) ==>
      Hydrated(s, Lookup(store)) == s && STORAGE_KEY !in HydratedStore(store)
      && forall k :: k in store && k != STORAGE_KEY ==> k in HydratedStore(store) && HydratedStore(store)[k] == store[k]
    ensures Hydrated(s, Lookup(store)).isAnalyzing == s.isAnalyzing
    ensures Hydrated(s, Lookup(store)).error == s.error
  {
  }

  /** Purge empties the state and the key; the save effect that the emptied
      list triggers writes nothing back, and a reload afterwards finds
      nothing and changes nothing. */
  lemma NothingToReloadAfterPurge(store: map<string, Stored>)
    ensures Saved(store - {STORAGE_KEY}, Initial().audits) == store - {STORAGE_KEY}
    ensures Hydrated(Initial(), Lookup(store - {STORAGE_KEY})) == Initial()
    ensures HydratedStore(store - {STORAGE_KEY}) == store - {STORAGE_KEY}
  {
  }

  // ---------------------------------------------------------------------------
  // The upload pipeline, from the data URL to the record.
  // ---------------------------------------------------------------------------

  /** The data URL is decoded first; only then is the provider's answer
      turned into a record. */
  function UploadResult(dataUrl: string, fileName: string, id: string, timestamp: string,
                        reply: GeminiService.ProviderReply, parse: string -> GeminiService.ParseOutcome)
    : (r: Result<map<string, Json.Value>, string>)
    ensures r.Failure? && !reply.Unbuilt? ==> r.error != ""
    ensures ',' !in dataUrl ==> r == Failure(GeminiService.DECODE_FAILED)
    ensures ',' in dataUrl && reply.Unbuilt? ==> r == Failure(GeminiService.RawMessage(reply.error))
  {
    match GeminiService.Base64Payload(dataUrl)
    case Failure(message) => Failure(message)
    case Success(_) => GeminiService.AnalyzeCallAudio(fileName, id, timestamp, reply, parse)
  }

  /** Every failure the handlers rethrow has a message, so the state shows
      that message; the generic one appears only for an error thrown while
      building the client that carries no message. */
  lemma FallbackOnlyForUnbuiltClient(s: AuditState, dataUrl: string, fileName: string, id: string, timestamp: string,
                                     reply: GeminiService.ProviderReply, parse: string -> GeminiService.ParseOutcome)
    requires UploadResult(dataUrl, fileName, id, timestamp, reply, parse).Failure?
    ensures var message := UploadResult(dataUrl, fileName, id, timestamp, reply, parse).error;
      message == "" <==> ',' in dataUrl && reply.Unbuilt? && GeminiService.RawMessage(reply.error) == ""
    ensures var message := UploadResult(dataUrl, fileName, id, timestamp, reply, parse).error;
      message != "" ==> Failed(Started(s), message).error == Some(message)
    ensures var message := UploadResult(dataUrl, fileName, id, timestamp, reply, parse).error;
      message == "" ==> Failed(Started(s), message).error == Some(UNEXPECTED_ERROR)
  {
  }

  /** A decodable file whose reply honours the schema, and names none of the
      local fields, ends as a typed record at the head of the list that
      carries the file name and the agent code extracted from it. */
  lemma SuccessfulUpload(s: AuditState, dataUrl: string, fileName: string, id: string, timestamp: string,
                         text: string, fields: map<string, Json.Value>,
                         parse: string -> GeminiService.ParseOutcome)
    requires ',' in dataUrl && text != ""
    requires parse(text) == GeminiService.Parsed(Json.Obj(fields))
    requires GeminiService.ProviderSchema(fields)
    requires "id" !in fields && "timestamp" !in fields && "fileName" !in fields && "agentCode" !in fields
    ensures var r := UploadResult(dataUrl, fileName, id, timestamp, GeminiService.Responded(Some(text)), parse);
      && r.Success?
      && GeminiService.Conforms(r.value)
      && var t := Finished(Started(s), Success(GeminiService.ToRecord(r.value)));
      && t.audits[0].fileName == fileName
      && t.audits[0].agentCode == GeminiService.ExtractAgentCode(fileName)
      && t.audits[0].id == id
      && t.audits[1..] == s.audits
      && !t.isAnalyzing && t.error.None?
  {
    GeminiService.AssembledRecordConforms(id, timestamp, fileName, fields);
    var r := UploadResult(dataUrl, fileName, id, timestamp, GeminiService.Responded(Some(text)), parse);
    assert r == Success(GeminiService.AssembleRecord(id, timestamp, fileName, Json.Obj(fields)));
    var t := Finished(Started(s), Success(GeminiService.ToRecord(r.value)));
    assert t.audits[1..] == s.audits;
  }

  // ---------------------------------------------------------------------------
  // Cookies: each one in the header is expired by name.
  // ---------------------------------------------------------------------------

  /** The cookie's name: the text before its first '=', or all of it, trimmed. */
  function CookieName(cookie: string): (name: string)
    ensures '=' !in name
    ensures |name| <= |cookie|
  {
    var eq := IndexOf(cookie, '=');
    var before := if eq > -1 then cookie[..eq] else cookie;
    var name := Trim(before);
    assert name == TrimStart(before)[..|name|];
    assert forall i :: 0 <= i < |name| ==> name[i] in before;
    name
  }

  /** A cookie without '=' is a bare name: all of it, trimmed. */
  lemma CookieNameWithoutEquals(cookie: string)
    requires '=' !in cookie
    ensures CookieName(cookie) == Trim(cookie)
  {
  }

  /** A cookie written as some text, '=' and a value is expired under that
      text, trimmed; the value, '=' signs in it included, plays no part. */
  lemma CookieNameOfPair(before: string, value: string)
    requires '=' !in before
    ensures CookieName(before + "=" + value) == Trim(before)
  {
    var cookie := before + "=" + value;
    assert cookie[|before|] == '=';
    assert cookie[..|before|] == before;
    assert IndexOf(cookie, '=') == |before|;
  }

  /** So a name padded with blanks, as `document.cookie` separates pairs with
      "; ", is expired under exactly that name. */
  lemma CookieNameOfPaddedPair(ws: string, name: string, value: string)
    requires AllWhitespace(ws) && '=' !in name && Trim(name) == name
    ensures CookieName(ws + name + "=" + value) == name
  {
    assert '=' !in ws + name by {
      forall i | 0 <= i < |ws| ensures ws[i] != '=' { assert IsWhitespace(ws[i]); }
      assert forall i :: 0 <= i < |ws + name| ==> (ws + name)[i] == if i < |ws| then ws[i] else name[i - |ws|];
    }
    CookieNameOfPair(ws + name, value);
    assert ws + name == ws + name + [];
    TrimIgnoresPadding(ws, name, []);
  }

  /** The `for` loop over `document.cookie.split(";")`: one expiring
      assignment per piece, in order. */
  method CookieExpiryWrites(cookieHeader: string) returns (writes: seq<string>)
    ensures |writes| == |Split(cookieHeader, ';')|
    ensures forall i :: 0 <= i < |writes| ==>
      writes[i] == CookieName(Split(cookieHeader, ';')[i]) + COOKIE_EXPIRY
  {
    var cookies := Split(cookieHeader, ';');
    writes := [];
    var i := 0;
    while i < |cookies|
      invariant 0 <= i <= |cookies|
      invariant |writes| == i
      invariant forall k :: 0 <= k < i ==> writes[k] == CookieName(cookies[k]) + COOKIE_EXPIRY
    {
      ExtendWrites(cookies, writes, i);
      writes := writes + [CookieName(cookies[i]) + COOKIE_EXPIRY];
      i := i + 1;
    }
  }

  /** One more turn of the loop keeps every earlier assignment. */
  lemma ExtendWrites(cookies: seq<string>, writes: seq<string>, i: nat)
    requires i < |cookies| && |writes| == i
    requires forall k :: 0 <= k < i ==> writes[k] == CookieName(cookies[k]) + COOKIE_EXPIRY
    ensures var longer := writes + [CookieName(cookies[i]) + COOKIE_EXPIRY];
      forall k :: 0 <= k < i + 1 ==> longer[k] == CookieName(cookies[k]) + COOKIE_EXPIRY
  {
    var longer := writes + [CookieName(cookies[i]) + COOKIE_EXPIRY];
    forall k | 0 <= k < i + 1
      ensures longer[k] == CookieName(cookies[k]) + COOKIE_EXPIRY
    {
      if k < i {
        assert longer[k] == writes[k];
      }
    }
  }

  /** An empty cookie header still yields one assignment, with an empty name. */
  lemma EmptyHeaderOneWrite()
    ensures Split("", ';') == [""]
    ensures CookieName("") == ""
  {
  }

  // ---------------------------------------------------------------------------
  // The component: its state and the two browser stores it touches.
  // ---------------------------------------------------------------------------

  class Shell {
    var state: AuditState
    var local: map<string, Stored>
    var session: map<string, string>

    constructor (local0: map<string, Stored>, session0: map<string, string>)
      ensures state == Initial()
      ensures local == local0 && session == session0
    {
      state := Initial();
      local := local0;
      session := session0;
    }

    /** The mount effect that reads the stored list back. */
    method Hydrate()
      modifies this
      ensures state == Hydrated(old(state), Lookup(old(local)))
      ensures local == HydratedStore(old(local))
      ensures session == old(session)
    {
      state := Hydrated(state, Lookup(local));
      local := HydratedStore(local);
    }

    /** The effect that runs whenever `audits` changes. */
    method Persist()
      modifies this
      ensures local == Saved(old(local), state.audits)
      ensures state == old(state) && session == old(session)
    {
      local := Saved(local, state.audits);
    }

    /** A click on the intake area opens the file picker only while no
        analysis is pending. */
    method OpenPicker() returns (shown: bool)
      ensures shown <==> !state.isAnalyzing
    {
      shown := !state.isAnalyzing;
    }

    /** The upload handler up to the provider call. */
    method BeginUpload(fileChosen: bool)
      modifies this
      ensures state == (if fileChosen then Started(old(state)) else old(state))
      ensures local == old(local) && session == old(session)
    {
      if !fileChosen {
        return;
      }
      state := Started(state);
    }

    /** The upload handler after the provider call. */
    method FinishUpload(outcome: Result<AuditRecord, string>)
      modifies this
      ensures state == Finished(old(state), outcome)
      ensures local == old(local) && session == old(session)
    {
      state := Finished(state, outcome);
    }

    /** The key-selection button: the error is cleared once the host's key
        dialog has been shown; without one, nothing happens. */
    method KeySetup(hostCanSelectKey: bool)
      modifies this
      ensures hostCanSelectKey ==> state == old(state).(error := None)
      ensures !hostCanSelectKey ==> state == old(state)
      ensures local == old(local) && session == old(session)
    {
      if hostCanSelectKey {
        state := state.(error := None);
      }
    }

    /** The purge. When storage refuses access, the first removal throws and
        nothing changes but the alert. */
    method ClearEverything(storageThrows: bool, cookieHeader: string) returns (alerted: bool, cookieWrites: seq<string>)
      modifies this
      ensures alerted == storageThrows
      ensures storageThrows ==> state == old(state) && local == old(local) && session == old(session) && cookieWrites == []
      ensures !storageThrows ==>
        && state == Initial()
        && local == old(local) - {STORAGE_KEY}
        && session == old(session) - {STORAGE_KEY}
        && |cookieWrites| == |Split(cookieHeader, ';')|
        && forall i :: 0 <= i < |cookieWrites| ==>
             cookieWrites[i] == CookieName(Split(cookieHeader, ';')[i]) + COOKIE_EXPIRY
    {
      if storageThrows {
        alerted := true;
        cookieWrites := [];
        return;
      }
      local := local - {STORAGE_KEY};
      session := session - {STORAGE_KEY};
      cookieWrites := CookieExpiryWrites(cookieHeader);
      state := Initial();
      alerted := false;
    }
  }

  /** Purging twice is purging once: the second purge finds the state already
      empty and the key already gone from both stores, and writes the same
      cookie assignments again. */
  method PurgeTwice(shell: Shell, cookieHeader: string)
    modifies shell
    ensures shell.state == Initial()
    ensures shell.local == old(shell.local) - {STORAGE_KEY}
    ensures shell.session == old(shell.session) - {STORAGE_KEY}
  {
    var alerted, writes := shell.ClearEverything(false, cookieHeader);
    var (state, local, session) := (shell.state, shell.local, shell.session);
    var alertedAgain, writesAgain := shell.ClearEverything(false, cookieHeader);
    assert shell.state == state && shell.local == local && shell.session == session;
    assert writesAgain == writes;
  }
}
