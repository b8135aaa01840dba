/**
 * The vision board component: prompt, image, video, loading flag and the
 * create/edit mode, with the generate, Veo and Start Over handlers. Each async
 * handler is split at its `await`: a `Begin` step up to the service call and a
 * `Finish` step that applies the call's outcome (`Success` with the returned
 * URL, or `Failure` when the call threw).
 */
module Vision {
  import opened Wrappers
  import opened Types

  datatype Mode = Create | Edit

  /** The service call a generate click makes, if any. */
  datatype ImageRequest =
    | GenerateImage(prompt: string)
    | EditImage(image: string, instruction: string)
    | NoRequest

  const PromptSuffix := ", photorealistic, high quality"

  /** What the preview pane shows. */
  datatype Preview = Spinner | ShowVideo(video: string) | ShowImage(image: string) | Placeholder

  /** The preview's nested conditional: loading, then video, then image. */
  function PreviewOf(loading: bool, video: Option<string>, image: Option<string>): (p: Preview)
    ensures p.Spinner? <==> loading
    ensures p.ShowVideo? <==> !loading && Truthy(video)
    ensures p.ShowImage? <==> !loading && !Truthy(video) && Truthy(image)
    ensures p.ShowVideo? ==> video == Some(p.video)
    ensures p.ShowImage? ==> image == Some(p.image)
  {
    if loading then Spinner
    else if Truthy(video) then ShowVideo(video.value)
    else if Truthy(image) then ShowImage(image.value)
    else Placeholder
  }

  class VisionBoard {
    var prompt: string
    var image: Option<string>
    var video: Option<string>
    var loading: bool
    var mode: Mode

    /** Edit mode is only entered by storing an image, and left only by Start Over. */
    ghost predicate Valid()
      reads this
    {
      mode == Edit ==> image.Some?
    }

    constructor ()
      ensures Valid()
      ensures prompt == "" && image.None? && video.None? && !loading && mode == Create
    {
      prompt := "";
      image := None;
      video := None;
      loading := false;
      mode := Create;
    }

    function CurrentPreview(): Preview
      reads this
    {
      PreviewOf(loading, video, image)
    }

    /**
     * The Veo button is offered only with an image and no video, so whenever it
     * is, the preview shows that image (or the spinner while loading).
     */
    function ShowsVeoButton(): (b: bool)
      reads this
      ensures b <==> Truthy(image) && !Truthy(video)
      ensures b ==> CurrentPreview() == (if loading then Spinner else ShowImage(image.value))
    {
      Truthy(image) && !Truthy(video)
    }

    /**
     * The generate button is disabled while loading or with an empty prompt:
     * never while the spinner shows, and a click on it always starts a request.
     */
    function GenerateEnabled(): (b: bool)
      reads this
      ensures b <==> !loading && prompt != ""
      ensures b ==> !CurrentPreview().Spinner?
    {
      !(loading || prompt == "")
    }

    /**
     * The Start Over button is offered only with an image: whenever the Veo
     * button is, and always in edit mode unless the stored image is the empty string.
     */
    function ShowsStartOver(): (b: bool)
      reads this
      ensures b <==> Truthy(image)
      ensures ShowsVeoButton() ==> b
      ensures Valid() && mode == Edit && image != Some("") ==> b
    {
      Truthy(image)
    }

    /** The textarea's `onChange`. */
    method SetPrompt(text: string)
      requires Valid()
      modifies this
      ensures Valid() && prompt == text
      ensures image == old(image) && video == old(video) && loading == old(loading) && mode == old(mode)
    {
      prompt := text;
    }

    /**
     * `handleGenerate` up to its `await`: with an empty prompt nothing happens
     * (`None`); otherwise loading starts, and in create mode the prompt with its
     * suffix is sent, in edit mode with an image the image and the instruction.
     */
    method BeginGenerate() returns (request: Option<ImageRequest>)
      requires Valid()
      modifies this
      ensures Valid()
      ensures prompt == old(prompt) && image == old(image) && video == old(video) && mode == old(mode)
      ensures old(prompt) == "" ==> request.None? && unchanged(this)
      ensures old(prompt) != "" ==> request.Some? && loading
      ensures request == Some(GenerateImage(old(prompt) + PromptSuffix)) <==> old(prompt) != "" && mode == Create
      ensures request.Some? && request.value.EditImage? <==>
        old(prompt) != "" && mode == Edit && Truthy(image)
      ensures request.Some? && request.value.EditImage? ==> request.value == EditImage(image.value, prompt)
      ensures request == Some(NoRequest) <==> old(prompt) != "" && mode == Edit && !Truthy(image)
      ensures old(GenerateEnabled()) ==> request.Some? && !GenerateEnabled()
    {
      if prompt == "" {
        return None;
      }
      loading := true;
      if mode == Create {
        request := Some(GenerateImage(prompt + PromptSuffix));
      } else if Truthy(image) {
        request := Some(EditImage(image.value, prompt));
      } else {
        request := Some(NoRequest);
      }
    }

    /**
     * The rest of `handleGenerate`: a created image switches to edit mode and
     * clears the prompt; an edited image replaces the old one and clears the
     * prompt; a failure changes nothing but the loading flag, which ends false
     * on every path.
     */
    method FinishGenerate(request: ImageRequest, outcome: Result<string, string>)
      requires Valid()
      modifies this
      ensures Valid() && !loading && video == old(video)
      ensures request.NoRequest? || outcome.Failure? ==>
        image == old(image) && mode == old(mode) && prompt == old(prompt)
      ensures request.GenerateImage? && outcome.Success? ==>
        image == Some(outcome.value) && mode == Edit && prompt == ""
      ensures request.EditImage? && outcome.Success? ==>
        image == Some(outcome.value) && mode == old(mode) && prompt == ""
    {
      if outcome.Success? {
        match request {
          case GenerateImage(_) =>
            image := Some(outcome.value);
            mode := Edit;
            prompt := "";
          case EditImage(_, _) =>
            image := Some(outcome.value);
            prompt := "";
          case NoRequest =>
        }
      }
      loading := false;
    }

    /** A generate click whose service call completes before anything else happens. */
    method HandleGenerate(outcome: Result<string, string>) returns (request: Option<ImageRequest>)
      requires Valid()
      modifies this
      ensures Valid() && video == old(video)
      ensures old(prompt) == "" ==> request.None? && unchanged(this)
      ensures old(prompt) != "" ==> !loading
      ensures old(prompt) != "" && (outcome.Failure? || (old(mode) == Edit && !Truthy(old(image)))) ==>
        image == old(image) && mode == old(mode) && prompt == old(prompt)
      ensures old(prompt) != "" && outcome.Success? && old(mode) == Create ==>
        request == Some(GenerateImage(old(prompt) + PromptSuffix))
        && image == Some(outcome.value) && mode == Edit && prompt == ""
      ensures old(prompt) != "" && outcome.Success? && old(mode) == Edit && Truthy(old(image)) ==>
        request == Some(EditImage(old(image).value, old(prompt)))
        && image == Some(outcome.value) && mode == Edit && prompt == ""
    {
      request := BeginGenerate();
      if request.Some? {
        FinishGenerate(request.value, outcome);
      }
    }

    /**
     * `handleVeo` up to its `await`: without an image nothing happens (`None`);
     * otherwise loading starts and the image is sent.
     */
    method BeginVeo() returns (request: Option<string>)
      requires Valid()
      modifies this
      ensures Valid()
      ensures prompt == old(prompt) && image == old(image) && video == old(video) && mode == old(mode)
      ensures !Truthy(image) ==> request.None? && loading == old(loading)
      ensures Truthy(image) ==> request == image && loading
      ensures old(ShowsVeoButton()) ==> request.Some? && ShowsVeoButton() && loading
    {
      if !Truthy(image) {
        return None;
      }
      loading := true;
      request := image;
    }

    /** The rest of `handleVeo`: success stores the video URL, failure keeps the old one. */
    method FinishVeo(outcome: Result<string, string>)
      requires Valid()
      modifies this
      ensures Valid() && !loading
      ensures prompt == old(prompt) && image == old(image) && mode == old(mode)
      ensures outcome.Success? ==> video == Some(outcome.value)
      ensures outcome.Failure? ==> video == old(video)
    {
      if outcome.Success? {
        video := Some(outcome.value);
      }
      loading := false;
    }

    /** Start Over: image and video cleared, back to create mode; the prompt is kept. */
    method StartOver()
      requires Valid()
      modifies this
      ensures Valid()
      ensures image.None? && video.None? && mode == Create
      ensures prompt == old(prompt) && loading == old(loading)
      ensures CurrentPreview() == (if loading then Spinner else Placeholder)
    {
      image := None;
      video := None;
      mode := Create;
    }
  }

  /**
   * Without interleaving, a video never shows without its image: a Veo call that
   * completes before anything else happens leaves the image in place, so with a
   * successful result the pane shows the video and the Veo button disappears.
   */
  method VeoRoundTrip(board: VisionBoard, url: string)
    requires board.Valid() && Truthy(board.image) && url != ""
    modifies board
    ensures board.Valid() && board.image == old(board.image) && board.video == Some(url)
    ensures board.CurrentPreview() == ShowVideo(url) && !board.ShowsVeoButton()
  {
    var request := board.BeginVeo();
    board.FinishVeo(Success(url));
  }
}
