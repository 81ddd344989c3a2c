/**
  components/admin/image-upload.tsx: the image picker that posts the chosen
  file and shows a simulated progress bar. Its timers are discrete events:
  `Tick` is one run of the 100 ms interval, `Respond` the end of the request
  (with the `url` of the JSON reply, or None when the request or the JSON
  parsing threw), and `ResetFires` the 500 ms timeout set in `finally`.
 */
module ImageUpload {
  import opened JsText

  const DefaultEndpoint: string := "/api/admin/upload"
  const ProgressStep: int := 10
  const ProgressCap: int := 90
  const ProgressDone: int := 100

  /** Where an upload stands: no upload, waiting for the response, or done
      with the reset timeout pending. */
  datatype Phase = Idle | AwaitingResponse | ResetScheduled

  /** The interval's update of the progress: +10, held at 90 once reached. */
  function TickProgress(p: int): (q: int)
    ensures p < ProgressCap ==> q == p + ProgressStep
    ensures p >= ProgressCap ==> q == ProgressCap
  {
    if p >= ProgressCap then ProgressCap else p + ProgressStep
  }

  /** The progress after n ticks of a fresh upload. */
  function ProgressAfterTicks(n: nat): int {
    if n == 0 then 0 else TickProgress(ProgressAfterTicks(n - 1))
  }

  /** n ticks show 10n percent, held at 90: ticks alone never reach 100. */
  lemma {:induction false} ProgressAfterTicksIs(n: nat)
    ensures ProgressAfterTicks(n) == if 10 * n < ProgressCap then 10 * n else ProgressCap
  {
    if n > 0 {
      ProgressAfterTicksIs(n - 1);
    }
  }

  class ImageUploader {
    const endpoint: string
    var uploading: bool
    var progress: int
    /** Whether the progress interval is still set. */
    var intervalActive: bool
    var phase: Phase
    /** Files posted to the endpoint and `onChange` calls, in order. */
    var posted: seq<string>
    var changes: seq<string>

    /** The states the uploader can be in: it is busy (and its input
        disabled) exactly while an upload is under way; the interval runs only
        while the response is awaited, when the progress is a multiple of 10
        no greater than 90; 100 is only shown once a URL has arrived. */
    predicate Valid()
      reads this
    {
      (uploading <==> phase != Idle) &&
      (intervalActive ==> phase == AwaitingResponse) &&
      (phase == Idle ==> progress == 0) &&
      (phase == AwaitingResponse ==> 0 <= progress <= ProgressCap && progress % ProgressStep == 0) &&
      (phase == ResetScheduled ==> 0 <= progress <= ProgressDone)
    }

    /** The input is disabled while uploading. */
    predicate InputDisabled()
      reads this
    {
      uploading
    }

    constructor (uploadEndpoint: Option<string>)
      ensures Valid() && phase == Idle && !uploading && progress == 0 && !intervalActive
      ensures endpoint == if uploadEndpoint.Some? then uploadEndpoint.value else DefaultEndpoint
      ensures posted == [] && changes == []
    {
      endpoint := if uploadEndpoint.Some? then uploadEndpoint.value else DefaultEndpoint;
      uploading := false;
      progress := 0;
      intervalActive := false;
      phase := Idle;
      posted := [];
      changes := [];
    }

    /** `handleUpload` up to the request: without a file, or while the input
        is disabled, nothing happens; otherwise the upload starts at 0 with
        the interval set, and the file is posted. */
    method SelectFile(file: Option<string>)
      requires Valid()
      modifies this
      ensures Valid()
      ensures file.None? || old(InputDisabled()) ==>
        uploading == old(uploading) && progress == old(progress) && intervalActive == old(intervalActive) &&
        phase == old(phase) && posted == old(posted) && changes == old(changes)
      ensures file.Some? && !old(InputDisabled()) ==>
        uploading && progress == 0 && intervalActive && phase == AwaitingResponse &&
        posted == old(posted) + [file.value] && changes == old(changes)
    {
      if file.None? || uploading {
        return;
      }
      uploading := true;
      progress := 0;
      intervalActive := true;
      phase := AwaitingResponse;
      posted := posted + [file.value];
    }

    /** One run of the interval: +10 below 90; at 90 or above the progress is
        held at 90 and the interval clears itself. */
    method Tick()
      requires Valid()
      modifies this
      ensures Valid()
      ensures old(intervalActive) ==> progress == TickProgress(old(progress))
      ensures old(intervalActive) ==> intervalActive == (old(progress) < ProgressCap)
      ensures !old(intervalActive) ==> progress == old(progress) && !intervalActive
      ensures uploading == old(uploading) && phase == old(phase) && posted == old(posted) && changes == old(changes)
    {
      if !intervalActive {
        return;
      }
      if progress >= ProgressCap {
        intervalActive := false;
        progress := ProgressCap;
      } else {
        progress := progress + ProgressStep;
      }
    }

    /** The end of the request: a truthy `url` sets the progress to 100 and
        calls `onChange` with it exactly once; no URL, or an error, calls
        nothing. Either way the interval is cleared and the reset scheduled. */
    method Respond(url: Option<string>)
      requires Valid()
      modifies this
      ensures Valid()
      ensures old(phase) != AwaitingResponse ==>
        uploading == old(uploading) && progress == old(progress) && intervalActive == old(intervalActive) &&
        phase == old(phase) && changes == old(changes)
      ensures old(phase) == AwaitingResponse ==>
        !intervalActive && phase == ResetScheduled && uploading &&
        progress == (if Truthy(url) then ProgressDone else old(progress)) &&
        changes == old(changes) + (if Truthy(url) then [url.value] else [])
      ensures posted == old(posted)
    {
      if phase != AwaitingResponse {
        return;
      }
      if Truthy(url) {
        progress := ProgressDone;
        changes := changes + [url.value];
      }
      intervalActive := false;
      phase := ResetScheduled;
    }

    /** The timeout set in `finally`: the uploader is idle again at 0. */
    method ResetFires()
      requires Valid()
      modifies this
      ensures Valid()
      ensures old(phase) == ResetScheduled ==> phase == Idle && !uploading && progress == 0
      ensures old(phase) != ResetScheduled ==>
        uploading == old(uploading) && progress == old(progress) && phase == old(phase)
      ensures intervalActive == old(intervalActive) && posted == old(posted) && changes == old(changes)
    {
      if phase != ResetScheduled {
        return;
      }
      uploading := false;
      progress := 0;
      phase := Idle;
    }
  }

  /** A whole upload: a file is chosen, the interval runs `ticks` times, the
      response arrives and the reset fires. The uploader ends idle at 0 and
      `onChange` has been called with the URL exactly when it is truthy;
      before the response the progress was 10 per tick, held at 90. */
  method Upload(u: ImageUploader, file: string, ticks: nat, url: Option<string>) returns (shownBeforeResponse: int)
    requires u.Valid() && !u.uploading
    modifies u
    ensures u.Valid() && !u.uploading && u.phase == Idle && u.progress == 0 && !u.intervalActive
    ensures u.posted == old(u.posted) + [file]
    ensures u.changes == old(u.changes) + (if Truthy(url) then [url.value] else [])
    ensures shownBeforeResponse == ProgressAfterTicks(ticks)
    ensures shownBeforeResponse == if 10 * ticks < ProgressCap then 10 * ticks else ProgressCap
  {
    u.SelectFile(Some(file));
    var i := 0;
    while i < ticks
      invariant 0 <= i <= ticks
      invariant u.Valid() && u.phase == AwaitingResponse && u.uploading
      invariant u.progress == ProgressAfterTicks(i)
      invariant !u.intervalActive ==> u.progress == ProgressCap
      invariant u.posted == old(u.posted) + [file] && u.changes == old(u.changes)
    {
      u.Tick();
      i := i + 1;
    }
    shownBeforeResponse := u.progress;
    ProgressAfterTicksIs(ticks);
    u.Respond(url);
    u.ResetFires();
  }
}
