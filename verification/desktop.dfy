/**
 The desktop generator (main.py). The module-level `generated_qr` is the
 only state its callbacks share; the QR image is abstracted as the payload
 text it encodes, and the widgets, message boxes and file dialog become an
 `Effect` describing what the user sees or what is written. The text typed
 into an entry and the path chosen in the save dialog are parameters.
 Two outcomes that depend on code outside the model are parameters too:
 `fits` says whether the QR library can encode a text at all (it raises
 `DataOverflowError` past the largest symbol), and each download press says
 whether writing the image file succeeds (it raises `OSError` otherwise).
 An exception ends the callback before its assignment or message, so the
 state is left as it was.
 */
module Desktop {
  import opened Optional
  import opened Text
  import PyRe
  import DropboxLink

  /** main.py's own copy of `modify_dropbox_link`, written as in that file. */
  function ModifyDropboxLink(link: string): (r: string)
    ensures r == DropboxLink.ModifyDropboxLink(link)
  {
    if Contains(link, "dropbox.com") then PyRe.SubAtEnd("dl=0", "dl=1", link) else link
  }

  /** `generated_qr`: the payload of the last QR code generated, if any. */
  datatype State = State(generated: Option<string>)

  /** What a callback shows or writes. */
  datatype Effect =
    | ShowError(message: string)
    | ShowQr(payload: string)
    | SaveImage(path: string, payload: string, notice: string)
    | Raised(error: string)
    | Nothing

  datatype Step = Step(state: State, effect: Effect)

  /**
   The three buttons, with the text in the matching entry, or the path chosen
   in the save dialog (`""` when cancelled) and whether writing that file
   succeeds.
   */
  datatype Action =
    | LinkButton(link: string)
    | DropboxButton(path: string)
    | DownloadButton(chosenPath: string, saveSucceeds: bool)

  const NoLink := "Please enter a link to generate QR code"
  const NoDropboxPath := "Please enter a Dropbox path to generate QR code"
  const NothingGenerated := "No QR code generated yet"
  const EncoderOverflow := "DataOverflowError"
  const SaveFailure := "OSError"

  /**
   `generate_qr_from_link`: an empty entry is refused; anything else, blanks
   included, is encoded as typed, unless the encoder cannot fit it.
   */
  function GenerateFromLink(st: State, link: string, fits: string -> bool): (r: Step)
    ensures r.effect.ShowError? <==> |link| == 0
    ensures |link| == 0 ==> r.state == st && r.effect.message == NoLink
    ensures r.effect.Raised? <==> |link| > 0 && !fits(link)
    ensures r.effect.Raised? ==> r.state == st && r.effect.error == EncoderOverflow
    ensures |link| > 0 && fits(link) ==> r.state.generated == Some(link) && r.effect == ShowQr(link)
  {
    if |link| == 0 then Step(st, ShowError(NoLink))
    else if !fits(link) then Step(st, Raised(EncoderOverflow))
    else Step(State(Some(link)), ShowQr(link))
  }

  /**
   `generate_qr_for_dropbox`: an empty entry is refused; anything else is
   encoded after the Dropbox rewrite, unless the encoder cannot fit the
   rewritten link.
   */
  function GenerateForDropbox(st: State, path: string, fits: string -> bool): (r: Step)
    ensures r.effect.ShowError? <==> |path| == 0
    ensures |path| == 0 ==> r.state == st && r.effect.message == NoDropboxPath
    ensures r.effect.Raised? <==> |path| > 0 && !fits(DropboxLink.ModifyDropboxLink(path))
    ensures r.effect.Raised? ==> r.state == st && r.effect.error == EncoderOverflow
    ensures |path| > 0 && fits(DropboxLink.ModifyDropboxLink(path))
            ==> r.state.generated == Some(DropboxLink.ModifyDropboxLink(path))
    ensures |path| > 0 && fits(DropboxLink.ModifyDropboxLink(path))
            ==> r.effect == ShowQr(DropboxLink.ModifyDropboxLink(path))
  {
    if |path| == 0 then Step(st, ShowError(NoDropboxPath))
    else
      var p := ModifyDropboxLink(path);
      if !fits(p) then Step(st, Raised(EncoderOverflow))
      else Step(State(Some(p)), ShowQr(p))
  }

  /**
   `download_qr`: with nothing generated it reports an error; otherwise the
   save dialog opens and a non-empty chosen path gets the image and a notice,
   unless writing the file fails, which raises before the notice; a cancelled
   dialog does nothing. The state never changes.
   */
  function DownloadQr(st: State, chosenPath: string, saveSucceeds: bool): (r: Step)
    ensures r.state == st
    ensures r.effect.ShowError? <==> st.generated.None?
    ensures r.effect.SaveImage? <==> st.generated.Some? && |chosenPath| > 0 && saveSucceeds
    ensures r.effect.SaveImage? ==> r.effect.path == chosenPath && r.effect.payload == st.generated.value
    ensures r.effect.Raised? <==> st.generated.Some? && |chosenPath| > 0 && !saveSucceeds
    ensures r.effect.Raised? ==> r.effect.error == SaveFailure
  {
    match st.generated
    case None => Step(st, ShowError(NothingGenerated))
    case Some(p) =>
      if |chosenPath| == 0 then Step(st, Nothing)
      else if saveSucceeds then Step(st, SaveImage(chosenPath, p, "QR code saved at " + chosenPath))
      else Step(st, Raised(SaveFailure))
  }

  /** One button press. */
  function Apply(st: State, a: Action, fits: string -> bool): Step
  {
    match a
    case LinkButton(link) => GenerateFromLink(st, link, fits)
    case DropboxButton(path) => GenerateForDropbox(st, path, fits)
    case DownloadButton(chosenPath, saveSucceeds) => DownloadQr(st, chosenPath, saveSucceeds)
  }

  /** The payload an action makes the new `generated_qr`, or `None` when it leaves it alone. */
  function Accepted(a: Action, fits: string -> bool): Option<string>
  {
    match a
    case LinkButton(link) => if |link| > 0 && fits(link) then Some(link) else None
    case DropboxButton(path) =>
      var p := DropboxLink.ModifyDropboxLink(path);
      if |path| > 0 && fits(p) then Some(p) else None
    case DownloadButton(_, _) => None
  }

  /** A session of button presses, in order. */
  function Run(st: State, actions: seq<Action>, fits: string -> bool): State
    decreases |actions|
  {
    if |actions| == 0 then st else Run(Apply(st, actions[0], fits).state, actions[1..], fits)
  }

  /** The payload of the last accepted generation in `actions`, scanning from the end. */
  function LastAccepted(actions: seq<Action>, fits: string -> bool): Option<string>
    decreases |actions|
  {
    if |actions| == 0 then None
    else if Accepted(actions[|actions| - 1], fits).Some? then Accepted(actions[|actions| - 1], fits)
    else LastAccepted(actions[..|actions| - 1], fits)
  }

  /** Stored payloads are never empty. */
  predicate Valid(st: State)
  {
    st.generated.Some? ==> |st.generated.value| > 0
  }

  /** A press replaces the stored payload with what it accepts, and otherwise leaves the state as it was. */
  lemma ApplyMatchesAccepted(st: State, a: Action, fits: string -> bool)
    ensures Accepted(a, fits).Some? ==> Apply(st, a, fits).state.generated == Accepted(a, fits)
    ensures Accepted(a, fits).None? ==> Apply(st, a, fits).state == st
  {
  }

  /** Every press keeps stored payloads non-empty. */
  lemma ApplyPreservesValid(st: State, a: Action, fits: string -> bool)
    requires Valid(st)
    ensures Valid(Apply(st, a, fits).state)
  {
  }

  /** Running a session one more press is that press after the session. */
  lemma {:induction false} RunSnoc(st: State, actions: seq<Action>, a: Action, fits: string -> bool)
    ensures Run(st, actions + [a], fits) == Apply(Run(st, actions, fits), a, fits).state
    decreases |actions|
  {
    if |actions| > 0 {
      assert (actions + [a])[1..] == actions[1..] + [a];
      RunSnoc(Apply(st, actions[0], fits).state, actions[1..], a, fits);
    } else {
      assert ([] + [a])[1..] == [];
    }
  }

  /**
   After any session, `generated_qr` holds the payload of the last accepted
   generation, or what it held before when no generation was accepted:
   refused inputs, texts the encoder cannot fit and downloads never change it.
   */
  lemma {:induction false} RunKeepsLastAccepted(st: State, actions: seq<Action>, fits: string -> bool)
    ensures Run(st, actions, fits).generated
         == if LastAccepted(actions, fits).Some? then LastAccepted(actions, fits) else st.generated
    decreases |actions|
  {
    if |actions| > 0 {
      var init := actions[..|actions| - 1];
      var a := actions[|actions| - 1];
      assert actions == init + [a];
      RunSnoc(st, init, a, fits);
      RunKeepsLastAccepted(st, init, fits);
      ApplyMatchesAccepted(Run(st, init, fits), a, fits);
    }
  }

  /** A session keeps stored payloads non-empty. */
  lemma {:induction false} RunPreservesValid(st: State, actions: seq<Action>, fits: string -> bool)
    requires Valid(st)
    ensures Valid(Run(st, actions, fits))
    decreases |actions|
  {
    if |actions| > 0 {
      ApplyPreservesValid(st, actions[0], fits);
      RunPreservesValid(Apply(st, actions[0], fits).state, actions[1..], fits);
    }
  }

  /**
   From start-up, a download reports an error exactly when no generation has
   been accepted yet, and otherwise saves the last accepted payload to the
   chosen path (nothing when the dialog is cancelled, an `OSError` when the
   write fails).
   */
  lemma DownloadAfterSession(actions: seq<Action>, fits: string -> bool, chosenPath: string, saveSucceeds: bool)
    ensures DownloadQr(Run(State(None), actions, fits), chosenPath, saveSucceeds).effect
         == if LastAccepted(actions, fits).None? then ShowError(NothingGenerated)
            else if |chosenPath| == 0 then Nothing
            else if !saveSucceeds then Raised(SaveFailure)
            else SaveImage(chosenPath, LastAccepted(actions, fits).value, "QR code saved at " + chosenPath)
  {
    RunKeepsLastAccepted(State(None), actions, fits);
  }
}
