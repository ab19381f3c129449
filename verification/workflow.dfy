/** The submission workflow of the page (`handleSubmit` and the input's
    `onChange` in front-end-nextjs/src/app/page.js) as a value-level state
    machine, and what the page renders from that state.

    The page keeps four pieces of React state: the text field `url`, the
    hosted image `qrCodeUrl`, the server's `message` and the `loading` flag.
    Each event below is applied atomically; the class in module HomePage
    performs the same transitions in place. */
module Workflow {
  import opened Wrappers
  import opened DownloadLink

  /** The page's four `useState` values (page.js lines 22-25). */
  datatype PageState = PageState(url: string, qrCodeUrl: string, message: string, loading: bool)

  /** What the component mounts with: empty strings and not loading. */
  const Initial: PageState := PageState("", "", "", false)

  /** `response.data` as axios hands it over. `Nullish` is a `null` or
      `undefined` body: reading `.message` from it throws a TypeError, which
      the page's `catch` swallows like any other failure. In an `Object`, a
      field the server left out is `None` (JavaScript's `undefined`). */
  datatype ResponseData =
    | Nullish
    | Object(message: Option<string>, qrCodeUrl: Option<string>)

  /** How the awaited `axios.post` ends: it resolves with a body, or it
      rejects (transport failure, non-2xx status). */
  datatype Outcome = Fulfilled(data: ResponseData) | Rejected

  /** The events that change the page's state. */
  datatype Event =
    | Edit(value: string)       // the field's onChange (page.js line 60)
    | Submit                    // handleSubmit up to the await (page.js line 31)
    | Settle(outcome: Outcome)  // handleSubmit after the await (page.js lines 33-39)

  /** Whether the `try` block runs to completion: only a resolved request
      whose body is not nullish gets both setters called. */
  predicate Succeeds(o: Outcome)
  {
    o.Fulfilled? && o.data.Object?
  }

  /** A response field as the page stores it. An absent field stores
      `undefined`, which every later use treats like the empty string (both
      are falsy for the render conditions). */
  function FieldText(v: Option<string>): string
  {
    v.GetOr("")
  }

  /** One event's effect on the state. */
  function Step(s: PageState, e: Event): (r: PageState)
    ensures r.url == (if e.Edit? then e.value else s.url)
    ensures r.loading == (if e.Edit? then s.loading else e.Submit?)
    ensures !(e.Settle? && Succeeds(e.outcome)) ==> r.message == s.message && r.qrCodeUrl == s.qrCodeUrl
  {
    match e
    case Edit(v) => s.(url := v)
    case Submit => s.(loading := true)
    case Settle(o) =>
      if Succeeds(o) then
        s.(message := FieldText(o.data.message), qrCodeUrl := FieldText(o.data.qrCodeUrl), loading := false)
      else
        s.(loading := false)
  }

  /** The state after the events `es`, applied in order. */
  function Run(s: PageState, es: seq<Event>): PageState
  {
    if es == [] then s else Step(Run(s, es[..|es| - 1]), es[|es| - 1])
  }

  /** The value of the last edit in `es`, if any. */
  function LastEdit(es: seq<Event>): Option<string>
  {
    if es == [] then None
    else if es[|es| - 1].Edit? then Some(es[|es| - 1].value)
    else LastEdit(es[..|es| - 1])
  }

  /** The (message, image URL) pair of the last successful completion in
      `es`, if any. */
  function LastResult(es: seq<Event>): Option<(string, string)>
  {
    if es == [] then None
    else if es[|es| - 1].Settle? && Succeeds(es[|es| - 1].outcome) then
      var d := es[|es| - 1].outcome.data;
      Some((FieldText(d.message), FieldText(d.qrCodeUrl)))
    else LastResult(es[..|es| - 1])
  }

  /** Whether the last submission or completion in `es` was a submission. */
  function LastLoading(es: seq<Event>): Option<bool>
  {
    if es == [] then None
    else if es[|es| - 1].Submit? then Some(true)
    else if es[|es| - 1].Settle? then Some(false)
    else LastLoading(es[..|es| - 1])
  }

  /** The field holds what the user last typed; nothing else ever clears or
      rewrites it, neither submitting nor a completion. */
  lemma {:induction false} FieldIsLastEdit(s: PageState, es: seq<Event>)
    ensures Run(s, es).url == LastEdit(es).GetOr(s.url)
  {
    if es != [] {
      FieldIsLastEdit(s, es[..|es| - 1]);
    }
  }

  /** The message and image shown are those of the last request to
      complete successfully (last resolved wins, whatever order the requests
      were issued in); failures and submissions leave a previous result in
      place. */
  lemma {:induction false} ResultIsLastSuccess(s: PageState, es: seq<Event>)
    ensures (Run(s, es).message, Run(s, es).qrCodeUrl) == LastResult(es).GetOr((s.message, s.qrCodeUrl))
  {
    if es != [] {
      ResultIsLastSuccess(s, es[..|es| - 1]);
    }
  }

  /** `loading` is true exactly when the last submission-related event was
      a submission. */
  lemma {:induction false} LoadingIsLastSubmit(s: PageState, es: seq<Event>)
    ensures Run(s, es).loading == LastLoading(es).GetOr(s.loading)
  {
    if es != [] {
      LoadingIsLastSubmit(s, es[..|es| - 1]);
    }
  }

  /** A run of events with no successful completion in it, however many
      submissions and failures, leaves the displayed result as it was. */
  lemma {:induction false} FailuresKeepStaleResult(s: PageState, es: seq<Event>)
    requires forall i :: 0 <= i < |es| && es[i].Settle? ==> !Succeeds(es[i].outcome)
    ensures Run(s, es).message == s.message && Run(s, es).qrCodeUrl == s.qrCodeUrl
  {
    if es != [] {
      FailuresKeepStaleResult(s, es[..|es| - 1]);
    }
  }

  /** How the transition function orders completions: A is submitted,
      then B, B's response comes back first, then A's, and A's result is
      what the state ends with, although B was submitted last. The page's
      UI cannot produce this run, because the button is disabled while a
      request is outstanding (`OverlapNotAllowed`, `OneRequestAtATime`). */
  lemma LastResolvedWins(s: PageState, a: string, b: string, m1: string, q1: string, m2: string, q2: string)
    ensures var es := [Edit(a), Submit, Edit(b), Submit,
                       Settle(Fulfilled(Object(Some(m2), Some(q2)))),
                       Settle(Fulfilled(Object(Some(m1), Some(q1))))];
            var t := Run(s, es);
            t.message == m1 && t.qrCodeUrl == q1 && t.url == b && !t.loading
  {
    var es := [Edit(a), Submit, Edit(b), Submit,
               Settle(Fulfilled(Object(Some(m2), Some(q2)))),
               Settle(Fulfilled(Object(Some(m1), Some(q1))))];
    assert es[..|es| - 1] == es[..5] && es[..5][..4] == es[..4] && es[..4][..3] == es[..3];
    assert LastEdit(es[..3]) == Some(b);
    assert LastEdit(es[..4]) == Some(b);
    assert LastEdit(es[..5]) == Some(b);
    FieldIsLastEdit(s, es);
    ResultIsLastSuccess(s, es);
    LoadingIsLastSubmit(s, es);
  }

  // ---------------------------------------------------------------------
  // What the page renders (page.js lines 57-84)
  // ---------------------------------------------------------------------

  /** The image and its download button, rendered together. */
  datatype ImageBlock = ImageBlock(src: string, download: Link)

  /** Everything the page shows that depends on its state. */
  datatype View = View(
    inputValue: string,
    submitDisabled: bool,
    submitLabel: string,
    spinner: bool,
    messageText: Option<string>,
    image: Option<ImageBlock>)

  const IdleLabel: string := "Generate QR Code"
  const BusyLabel: string := "Generating..."

  /** The JSX of the page as a function of its state: `disabled={loading}`,
      `{loading && ...}`, `{message && ...}` and `{qrCodeUrl && ...}`. */
  function Render(s: PageState): (v: View)
    ensures v.inputValue == s.url
    ensures v.submitDisabled == v.spinner == s.loading
    ensures v.messageText.Some? <==> s.message != ""
    ensures v.image.Some? <==> s.qrCodeUrl != ""
    ensures v.image.Some? ==> v.image.value.download.href == DeriveDownloadUrl(v.image.value.src)
  {
    View(
      s.url,
      s.loading,
      if s.loading then BusyLabel else IdleLabel,
      s.loading,
      if s.message != "" then Some(s.message) else None,
      if s.qrCodeUrl != "" then Some(ImageBlock(s.qrCodeUrl, DownloadLinkFor(s.qrCodeUrl))) else None)
  }

  /** While a request is outstanding the button is disabled and relabelled
      and the spinner shows; the field and any earlier result stay on
      screen. */
  lemma SubmitShowsProgress(s: PageState)
    ensures var v := Render(Step(s, Submit));
            && v.submitDisabled && v.spinner && v.submitLabel == BusyLabel
            && v.inputValue == Render(s).inputValue
            && v.messageText == Render(s).messageText
            && v.image == Render(s).image
  {
  }

  /** After a successful completion carrying a message `m` and an image
      URL `q`, the page shows `m`, the image at `q` and a download button
      whose link is `q` with its first `/upload/` turned into
      `/upload/fl_attachment/`, saved as `qr-code.png`; the button is
      enabled again. */
  lemma SuccessShowsResult(s: PageState, m: string, q: string)
    requires m != "" && q != ""
    ensures var v := Render(Step(s, Settle(Fulfilled(Object(Some(m), Some(q))))));
            && !v.submitDisabled && !v.spinner && v.submitLabel == IdleLabel
            && v.messageText == Some(m)
            && v.image == Some(ImageBlock(q, Link(DeriveDownloadUrl(q), "qr-code.png")))
  {
  }

  /** After a failed completion nothing new is shown: no error text, and
      the earlier message and image (if any) remain. */
  lemma FailureShowsNothingNew(s: PageState, o: Outcome)
    requires !Succeeds(o)
    ensures var v := Render(Step(s, Settle(o)));
            && !v.submitDisabled && !v.spinner
            && v.messageText == Render(s).messageText
            && v.image == Render(s).image
  {
  }

  /** A resolved body that lacks its fields is not treated as a failure:
      it replaces the earlier result with nothing. */
  lemma MissingFieldsClearResult(s: PageState)
    ensures var v := Render(Step(s, Settle(Fulfilled(Object(None, None)))));
            v.messageText == None && v.image == None
  {
  }

  /** Submitting `https://example.com` from any state, and receiving
      `{"message": "ok", "qr_code_url": "https://cdn.example.com/upload/x.png"}`,
      shows "ok", the image, and a download link to
      `https://cdn.example.com/upload/fl_attachment/x.png`. */
  lemma SuccessExample(s: PageState, host: string)
    requires host == "https://cdn.example.com"
    ensures var es := [Edit("https://example.com"), Submit,
                       Settle(Fulfilled(Object(Some("ok"), Some(host + "/upload/x.png")))) ];
            var v := Render(Run(s, es));
            && v.messageText == Some("ok")
            && v.image == Some(ImageBlock(host + "/upload/x.png",
                                          Link(host + "/upload/fl_attachment/x.png", "qr-code.png")))
  {
    var q := host + "/upload/x.png";
    var es := [Edit("https://example.com"), Submit, Settle(Fulfilled(Object(Some("ok"), Some(q))))];
    DeriveCdnExample(host, "x.png");
    assert host + Upload + "x.png" == q;
    assert host + "/upload/fl_attachment/" + "x.png" == host + "/upload/fl_attachment/x.png";
    assert es[..|es| - 1] == es[..2] && es[..2][..1] == es[..1] && es[..1][..0] == [];
    SuccessShowsResult(Run(s, es[..2]), "ok", q);
  }

  // ---------------------------------------------------------------------
  // The page as the user drives it: one request at a time
  // ---------------------------------------------------------------------

  /** The page's state together with how many requests are outstanding. */
  datatype Session = Session(page: PageState, inFlight: nat)

  /** What the rendered page lets happen next: the user can always type,
      can submit only through an enabled button, and a completion only
      arrives for an outstanding request. */
  predicate Allowed(p: Session, e: Event)
  {
    match e
    case Edit(_) => true
    case Submit => !Render(p.page).submitDisabled
    case Settle(_) => p.inFlight > 0
  }

  function Advance(p: Session, e: Event): Session
  {
    var n := match e
      case Edit(_) => p.inFlight
      case Submit => p.inFlight + 1
      case Settle(_) => if p.inFlight > 0 then p.inFlight - 1 else 0;
    Session(Step(p.page, e), n)
  }

  /** Every event of `es` is allowed when it happens. */
  predicate AllowedRun(p: Session, es: seq<Event>)
    decreases |es|
  {
    es == [] || (Allowed(p, es[0]) && AllowedRun(Advance(p, es[0]), es[1..]))
  }

  function Drive(p: Session, es: seq<Event>): Session
    decreases |es|
  {
    if es == [] then p else Drive(Advance(p, es[0]), es[1..])
  }

  /** At most one request is outstanding, and `loading` says whether one is. */
  predicate OneAtATime(p: Session)
  {
    p.inFlight <= 1 && (p.page.loading <==> p.inFlight == 1)
  }

  /** Each allowed event keeps at most one request outstanding. */
  lemma AdvanceKeepsOneAtATime(p: Session, e: Event)
    requires OneAtATime(p) && Allowed(p, e)
    ensures OneAtATime(Advance(p, e))
  {
  }

  /** Because the disabled button blocks a second submission, a page
      driven from mount never has two requests outstanding, and its
      spinner shows exactly while one is. */
  lemma {:induction false} OneRequestAtATime(p: Session, es: seq<Event>)
    requires OneAtATime(p) && AllowedRun(p, es)
    ensures OneAtATime(Drive(p, es))
    decreases |es|
  {
    if es != [] {
      AdvanceKeepsOneAtATime(p, es[0]);
      OneRequestAtATime(Advance(p, es[0]), es[1..]);
    }
  }

  /** Every event of `mid` is an edit of the field. */
  predicate AllEdits(mid: seq<Event>)
  {
    forall i :: 0 <= i < |mid| ==> mid[i].Edit?
  }

  /** While a request is outstanding, edits cannot re-enable the button,
      so the next submission is refused. */
  lemma {:induction false} LoadingBlocksSubmit(p: Session, mid: seq<Event>, rest: seq<Event>)
    requires p.page.loading && AllEdits(mid)
    ensures !AllowedRun(p, mid + [Submit] + rest)
    decreases |mid|
  {
    var es := mid + [Submit] + rest;
    if mid == [] {
      assert es[0] == Submit;
    } else {
      assert es[0] == mid[0];
      assert es[1..] == mid[1..] + [Submit] + rest;
      LoadingBlocksSubmit(Advance(p, mid[0]), mid[1..], rest);
    }
  }

  /** No allowed run, from any session, holds two submissions with only
      edits between them: whichever of the two comes while `loading` is
      true finds the button disabled. */
  lemma {:induction false} OverlapNotAllowed(p: Session, pre: seq<Event>, mid: seq<Event>, rest: seq<Event>)
    requires AllEdits(mid)
    ensures !AllowedRun(p, pre + [Submit] + mid + [Submit] + rest)
    decreases |pre|
  {
    var es := pre + [Submit] + mid + [Submit] + rest;
    if pre == [] {
      assert es[0] == Submit;
      assert es[1..] == mid + [Submit] + rest;
      if Allowed(p, Submit) {
        LoadingBlocksSubmit(Advance(p, Submit), mid, rest);
      }
    } else {
      assert es[0] == pre[0];
      assert es[1..] == pre[1..] + [Submit] + mid + [Submit] + rest;
      OverlapNotAllowed(Advance(p, pre[0]), pre[1..], mid, rest);
    }
  }

  /** Folding `Step` front to back gives the same state as `Run`. */
  lemma {:induction false} RunFirst(s: PageState, es: seq<Event>)
    requires es != []
    ensures Run(s, es) == Run(Step(s, es[0]), es[1..])
    decreases |es|
  {
    if |es| == 1 {
      assert es[..|es| - 1] == [] && es[1..] == [];
    } else {
      var init := es[..|es| - 1];
      RunFirst(s, init);
      assert init[0] == es[0];
      assert es[1..][..|es[1..]| - 1] == init[1..];
    }
  }

  /** Driving a session changes its page exactly as `Run` does, so the
      lemmas about `Run` hold along every allowed run. */
  lemma {:induction false} DriveIsRun(p: Session, es: seq<Event>)
    ensures Drive(p, es).page == Run(p.page, es)
    decreases |es|
  {
    if es != [] {
      DriveIsRun(Advance(p, es[0]), es[1..]);
      RunFirst(p.page, es);
    }
  }

  /** The mounted page starts with nothing outstanding. */
  lemma MountIsOneAtATime()
    ensures OneAtATime(Session(Initial, 0))
  {
  }
}
