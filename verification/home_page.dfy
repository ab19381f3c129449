/** The `Home` component of front-end-nextjs/src/app/page.js as an object
    whose fields are its four pieces of React state, updated in place by one
    method per event. Each method performs the transition that
    `Workflow.Step` specifies, so every lemma proved about `Step`, `Run` and
    `Render` holds of the object's successive states. */
module HomePage {
  import opened Wrappers
  import opened DownloadLink
  import opened ApiRequest
  import opened Workflow

  class Home {
    /** The text field's value. */
    var url: string
    /** The hosted image URL of the last successful response. */
    var qrCodeUrl: string
    /** The message of the last successful response. */
    var message: string
    /** Whether a request is outstanding. */
    var loading: bool
    /** The service address, fixed when the page is built. */
    const apiUrl: string

    /** The object's state as a value. */
    function State(): PageState
      reads this
    {
      PageState(url, qrCodeUrl, message, loading)
    }

    /** Mounting the page: every `useState` starts empty and idle, and the
        service address is resolved from the environment. */
    constructor (env: Option<string>)
      ensures State() == Initial
      ensures apiUrl == ResolveApiUrl(env)
    {
      url, qrCodeUrl, message, loading := "", "", "", false;
      apiUrl := ResolveApiUrl(env);
    }

    /** The input's `onChange`: the field takes the typed value, nothing else
        changes. */
    method ChangeUrl(value: string)
      modifies this
      ensures url == value
      ensures qrCodeUrl == old(qrCodeUrl) && message == old(message) && loading == old(loading)
      ensures State() == Step(old(State()), Edit(value))
    {
      url := value;
    }

    /** `handleSubmit` up to its `await`: `loading` becomes true and nothing
        else changes; the request goes to the URL built from the field as it
        stands. */
    method BeginSubmit() returns (request: string)
      modifies this
      ensures loading
      ensures url == old(url) && qrCodeUrl == old(qrCodeUrl) && message == old(message)
      ensures request == RequestUrl(apiUrl, url)
      ensures State() == Step(old(State()), Submit)
    {
      loading := true;
      request := RequestUrl(apiUrl, url);
    }

    /** `handleSubmit` after its `await`: a response with a body sets the
        message and the image URL from it; any failure only gets logged and
        leaves both as they were; either way `loading` ends false and the
        field is untouched. */
    method FinishSubmit(outcome: Outcome)
      modifies this
      ensures !loading && url == old(url)
      ensures Succeeds(outcome) ==>
                message == FieldText(outcome.data.message) && qrCodeUrl == FieldText(outcome.data.qrCodeUrl)
      ensures !Succeeds(outcome) ==> message == old(message) && qrCodeUrl == old(qrCodeUrl)
      ensures State() == Step(old(State()), Settle(outcome))
    {
      match outcome {
        case Fulfilled(Object(m, q)) =>
          message := FieldText(m);
          qrCodeUrl := FieldText(q);
        case Fulfilled(Nullish) =>
        case Rejected =>
      }
      loading := false;
    }

    /** `handleDownload`: the link it clicks points at the force-download
        variant of the current image URL and suggests `qr-code.png`; the
        page's state is not touched. */
    method HandleDownload() returns (link: Link)
      ensures link.href == DeriveDownloadUrl(qrCodeUrl)
      ensures link.filename == "qr-code.png"
      ensures Contains(qrCodeUrl, Upload) ==> |link.href| == |qrCodeUrl| + 14
      ensures !Contains(qrCodeUrl, Upload) ==> link.href == qrCodeUrl
    {
      link := DownloadLinkFor(qrCodeUrl);
      if Contains(qrCodeUrl, Upload) {
        DeriveInsertsFlag(qrCodeUrl);
      }
    }

    /** What the page currently shows. */
    function Rendered(): (v: View)
      reads this
      ensures v.submitDisabled <==> loading
      ensures v.messageText.Some? <==> message != ""
      ensures v.image.Some? <==> qrCodeUrl != ""
    {
      Render(State())
    }
  }

  /** A session on the page: the user types, submits, the request fails,
      then the user submits again and it succeeds. The field keeps its
      text throughout, and the second response is what is shown. */
  method SubmitTwice(env: Option<string>, typed: string, m: string, q: string)
  {
    var page := new Home(env);
    page.ChangeUrl(typed);
    var r1 := page.BeginSubmit();
    assert r1 == RequestUrl(ResolveApiUrl(env), typed);
    assert page.Rendered().submitDisabled;
    page.FinishSubmit(Rejected);
    assert page.url == typed && page.message == "" && page.qrCodeUrl == "";
    var r2 := page.BeginSubmit();
    assert r2 == r1;
    page.FinishSubmit(Fulfilled(Object(Some(m), Some(q))));
    var link := page.HandleDownload();
    assert page.url == typed && page.message == m && !page.loading;
    assert link.href == DeriveDownloadUrl(q);
  }
}
