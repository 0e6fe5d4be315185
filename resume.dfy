/**
 * The public résumé page: it fetches the résumé's URL once, then shows a
 * loading notice, a message, or the PDF in a frame, and offers a download.
 * The page's state is the three cells `resumeUrl`, `loading` and `error`.
 */
module ResumePage {
  import opened Wrappers
  import opened JsString
  import opened Models
  import opened Server
  import opened AdminPage

  const UnavailableMessage := "Resume not available yet"
  const NoResumeMessage := "No resume uploaded yet"
  const FitWidth := "#view=FitH"

  /** `REACT_APP_API_URL ? REACT_APP_API_URL.replace('/api', '') : 'http://localhost:5000'`:
      only an unset or empty variable falls back to the default. */
  function ResumeOrigin(apiUrl: Option<string>): (r: string)
    ensures apiUrl.None? || apiUrl == Some("") ==> r == DefaultOrigin
    ensures apiUrl.Some? && apiUrl.value != "" && (forall j :: !OccursAt(apiUrl.value, "/api", j)) ==> r == apiUrl.value
    ensures apiUrl.Some? && apiUrl.value != "" ==>
      forall i :: FirstOccurrence(apiUrl.value, "/api", i) ==> r == apiUrl.value[..i] + apiUrl.value[i + 4..]
  {
    if apiUrl.Some? && apiUrl.value != "" then ReplaceFirst(apiUrl.value, "/api", "") else DefaultOrigin
  }

  /** The admin link and the résumé page resolve a relative URL against the
      same origin, except when the variable is exactly `/api`: the page
      then uses the empty origin and the admin link the default. */
  lemma OriginsDifferOnlyForBareApi(apiUrl: Option<string>)
    ensures AdminOrigin(apiUrl) != ResumeOrigin(apiUrl) <==> apiUrl == Some("/api")
  {
    if apiUrl.Some? {
      RemoveLeavesEmpty(apiUrl.value, "/api");
    }
  }

  /** `fullUrl` and `fullResumeUrl`: an absolute URL as it is, a path after the origin. */
  function FullUrl(resumeUrl: string, apiUrl: Option<string>): (r: string)
    ensures StartsWith(resumeUrl, "http") ==> r == resumeUrl
    ensures !StartsWith(resumeUrl, "http") ==> r == ResumeOrigin(apiUrl) + resumeUrl
    ensures |r| >= |resumeUrl| && r[|r| - |resumeUrl|..] == resumeUrl
  {
    if StartsWith(resumeUrl, "http") then resumeUrl else ResumeOrigin(apiUrl) + resumeUrl
  }

  /** `handleDownload`: the URL it opens in a new tab, if any. */
  function DownloadTarget(resumeUrl: string, apiUrl: Option<string>): (r: Option<string>)
    ensures r.None? <==> resumeUrl == ""
    ensures r.Some? ==> r.value == FullUrl(resumeUrl, apiUrl)
  {
    if resumeUrl == "" then None else Some(FullUrl(resumeUrl, apiUrl))
  }

  /** What the page renders. */
  datatype View = Loading | Notice(text: string) | Viewer(src: string)

  /** `error` is shown when it is set and non-empty (JavaScript truthiness). */
  predicate ShowsError(error: Option<string>) {
    error.Some? && error.value != ""
  }

  function SelectView(loading: bool, error: Option<string>, resumeUrl: string, apiUrl: Option<string>): (r: View)
    ensures loading <==> r == Loading
    ensures r.Viewer? <==> !loading && !ShowsError(error) && resumeUrl != ""
    ensures r.Viewer? ==> r.src == FullUrl(resumeUrl, apiUrl) + FitWidth
    ensures r.Notice? ==> r.text == (if ShowsError(error) then error.value else NoResumeMessage)
  {
    if loading then Loading
    else if ShowsError(error) || resumeUrl == "" then
      Notice(if ShowsError(error) then error.value else NoResumeMessage)
    else Viewer(FullUrl(resumeUrl, apiUrl) + FitWidth)
  }

  /** The page's state after `fetchResume`, given the server's answer or, as
      `None`, a request that failed before one arrived. Any answer but a
      found résumé makes the request throw. */
  datatype PageState = PageState(resumeUrl: string, error: Option<string>, loading: bool)

  const InitialState := PageState("", None, true)

  function Fetched(s: PageState, reply: Option<ResumeOutcome>): (r: PageState)
    ensures !r.loading
    ensures reply.Some? && reply.value.ResumeAt? ==> r.resumeUrl == reply.value.resumeUrl && r.error == None
    ensures !(reply.Some? && reply.value.ResumeAt?) ==> r.resumeUrl == s.resumeUrl && r.error == Some(UnavailableMessage)
  {
    match reply
    case Some(ResumeAt(url)) => PageState(url, None, false)
    case _ => PageState(s.resumeUrl, Some(UnavailableMessage), false)
  }

  /** After the first fetch, the page shows the frame exactly when the server
      has a résumé for its first user, and otherwise says it is unavailable. */
  lemma FirstFetchView(users: seq<User>, apiUrl: Option<string>)
    ensures var s := Fetched(InitialState, Some(PublicResume(users)));
      var v := SelectView(s.loading, s.error, s.resumeUrl, apiUrl);
      && (v.Viewer? <==> |users| > 0 && users[0].resumeUrl != "")
      && (v.Viewer? ==> v.src == FullUrl(users[0].resumeUrl, apiUrl) + FitWidth)
      && (!v.Viewer? ==> v == Notice(UnavailableMessage))
  {
  }

  /** The page's three state cells. */
  class ResumeView {
    var resumeUrl: string
    var error: Option<string>
    var loading: bool

    function State(): PageState
      reads this
    {
      PageState(resumeUrl, error, loading)
    }

    constructor ()
      ensures State() == InitialState
    {
      resumeUrl, error, loading := "", None, true;
    }

    /** `fetchResume`: store the URL and clear the error, or set the error;
        stop loading either way. */
    method FetchResume(reply: Option<ResumeOutcome>)
      modifies this
      ensures State() == Fetched(old(State()), reply)
    {
      match reply {
        case Some(ResumeAt(url)) =>
          resumeUrl := url;
          error := None;
        case _ =>
          error := Some(UnavailableMessage);
      }
      loading := false;
    }
  }
}
