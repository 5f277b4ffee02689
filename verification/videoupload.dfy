/** `handlerUploadVideo` and `dbVideoToSignedVideo`.

    The handler is modelled as a pure function from the results of its
    external steps (UUID parsing, JWT checks, the database, multipart
    parsing, temp files, ffprobe, ffmpeg, S3) to its outcome: the status it
    answers with, where it stopped, which files it leaves behind, the
    upload it issues and the record it hands to `UpdateVideo`. */
module VideoUpload {
  import opened Wrappers
  import opened GoStrings
  import opened Base64
  import opened Records
  import opened Aspect
  import opened Storage
  import opened Checks

  /** The configuration the handler reads. */
  datatype Config = Config(s3Bucket: string)

  /** Width and height of a probed stream. */
  datatype Dimensions = Dimensions(width: int, height: int)

  /** ffprobe's result: a failure to run, a non-zero exit or unparsable JSON,
      or the list of streams it reported. */
  datatype ProbeResult = ProbeFailed | Probed(streams: seq<Dimensions>)

  /** The results of the handler's external steps. */
  datatype VideoUploadSteps = VideoUploadSteps(
    videoID: Option<Uuid>,     // uuid.Parse of the "videoID" path value
    token: Option<string>,     // auth.GetBearerToken
    userID: Option<Uuid>,      // auth.ValidateJWT of that token
    record: Option<Video>,     // cfg.db.GetVideo(videoID)
    mediaType: Option<string>, // r.FormFile("video"), then mime.ParseMediaType of the part's Content-Type ("" when it does not parse)
    tempFile: Option<string>,  // os.CreateTemp: the staged file's path
    copied: bool,              // io.Copy of the part into the staged file
    probe: ProbeResult,        // ffprobe on the staged file
    rewound: bool,             // Seek(0, io.SeekStart) on the staged file
    random: seq<byte>,         // the 32 bytes rand.Read fills
    fastStart: bool,           // ffmpeg writes the processed file
    partialOutput: bool,       // a failed ffmpeg run still left its output file behind
    outputOpened: bool,              // os.Open of the processed file
    putSucceeded: bool,        // S3 PutObject; the handler discards this result
    updateSucceeded: bool)     // cfg.db.UpdateVideo

  /** What the source itself requires of these results: rand.Read always
      fills the slice, and a successful probe reports a first stream (the
      handler indexes `Streams[0]` without checking). */
  predicate ValidSteps(s: VideoUploadSteps)
  {
    && |s.random| == KeyRandomBytes
    && (s.probe.Probed? ==> |s.probe.streams| > 0)
  }

  /** Where the handler stops. */
  datatype Stop =
    | InvalidID | MissingToken | InvalidToken | LookupFailed | NotOwner
    | NoFormFile | NotMp4 | TempFileFailed | CopyFailed | ProbeError
    | SeekFailed | FastStartFailed | OpenFailed | UpdateFailed | Done

  /** The status written for each stop. On `Done` the handler writes no
      response, so net/http answers 200 with an empty body. */
  function StatusOf(stop: Stop): int
  {
    match stop
    case InvalidID => StatusBadRequest
    case MissingToken => StatusUnauthorized
    case InvalidToken => StatusUnauthorized
    case LookupFailed => StatusBadRequest
    case NotOwner => StatusUnauthorized
    case NoFormFile => StatusInternalServerError
    case NotMp4 => StatusBadRequest
    case TempFileFailed => StatusInternalServerError
    case CopyFailed => StatusInternalServerError
    case ProbeError => StatusInternalServerError
    case SeekFailed => StatusInternalServerError
    case FastStartFailed => StatusInternalServerError
    case OpenFailed => StatusInternalServerError
    case UpdateFailed => StatusInternalServerError
    case Done => StatusOK
  }

  /** The S3 upload the handler issues. */
  datatype PutObject = PutObject(bucket: string, key: string, contentType: string, bodyPath: string)

  datatype VideoOutcome = VideoOutcome(
    status: int,
    stop: Stop,
    staged: Option<string>,     // the staged temp file, created and removed again by its defer
    leftOnDisk: Option<string>, // a file the handler created and did not remove
    put: Option<PutObject>,     // the upload issued
    update: Option<Video>)      // the record handed to UpdateVideo

  /** The key prefix for the first probed stream. */
  function KeyPrefix(s: VideoUploadSteps): string
    requires ValidSteps(s) && s.probe.Probed?
  {
    var first := s.probe.streams[0];
    AspectPrefix(AspectRatioLabel(first.width, first.height))
  }

  /** The object key the handler derives from the probe, the random bytes and the media type. */
  function UploadKey(s: VideoUploadSteps): string
    requires ValidSteps(s) && s.probe.Probed? && s.mediaType.Some?
  {
    ObjectKey(KeyPrefix(s), s.random, Extension(s.mediaType.value))
  }

  /** The caller is authenticated and owns the record. */
  predicate Authorized(s: VideoUploadSteps)
  {
    && s.videoID.Some? && s.token.Some? && s.userID.Some? && s.record.Some?
    && s.record.value.userID == s.userID.value
  }

  /** Every step up to opening the processed file succeeded. */
  predicate ReachesUpload(s: VideoUploadSteps)
  {
    && Authorized(s) && s.mediaType == Some(Mp4MediaType) && s.tempFile.Some?
    && s.copied && s.probe.Probed? && s.rewound && s.fastStart && s.outputOpened
  }

  function Stopped(stop: Stop, staged: Option<string>): VideoOutcome
  {
    VideoOutcome(StatusOf(stop), stop, staged, None, None, None)
  }

  /** `handlerUploadVideo`. */
  function HandleUploadVideo(cfg: Config, s: VideoUploadSteps): (o: VideoOutcome)
    requires ValidSteps(s)
    ensures o.status == StatusOf(o.stop)
    ensures o.update.Some? <==> ReachesUpload(s)
    ensures o.update.Some? ==>
      o.update.value == s.record.value.(videoURL := Some(StoredReference(cfg.s3Bucket, UploadKey(s))))
  {
    if s.videoID.None? then Stopped(InvalidID, None)
    else if s.token.None? then Stopped(MissingToken, None)
    else if s.userID.None? then Stopped(InvalidToken, None)
    else if s.record.None? then Stopped(LookupFailed, None)
    else if s.record.value.userID != s.userID.value then Stopped(NotOwner, None)
    else if s.mediaType.None? then Stopped(NoFormFile, None)
    else if s.mediaType.value != Mp4MediaType then Stopped(NotMp4, None)
    else if s.tempFile.None? then Stopped(TempFileFailed, None)
    else if !s.copied then Stopped(CopyFailed, s.tempFile)
    else if s.probe.ProbeFailed? then Stopped(ProbeError, s.tempFile)
    else if !s.rewound then Stopped(SeekFailed, s.tempFile)
    else
      var key := UploadKey(s);
      var processed := FastStartOutputPath(s.tempFile.value);
      // The processed file's removal is deferred only after it opens.
      if !s.fastStart then
        VideoOutcome(StatusOf(FastStartFailed), FastStartFailed, s.tempFile,
                     if s.partialOutput then Some(processed) else None, None, None)
      else if !s.outputOpened then
        VideoOutcome(StatusOf(OpenFailed), OpenFailed, s.tempFile, Some(processed), None, None)
      else
        var put := PutObject(cfg.s3Bucket, key, s.mediaType.value, processed);
        var updated := s.record.value.(videoURL := Some(StoredReference(cfg.s3Bucket, key)));
        var stop := if s.updateSucceeded then Done else UpdateFailed;
        VideoOutcome(StatusOf(stop), stop, s.tempFile, None, Some(put), Some(updated))
  }

  /** The processed file is uploaded to the configured bucket under the
      derived key, with the media type as content type, exactly when the
      record is updated. */
  lemma UploadedExactlyWhenUpdated(cfg: Config, s: VideoUploadSteps)
    requires ValidSteps(s)
    ensures var o := HandleUploadVideo(cfg, s);
      && (o.put.Some? <==> o.update.Some?)
      && (o.put.Some? ==>
            o.put.value == PutObject(cfg.s3Bucket, UploadKey(s), Mp4MediaType, FastStartOutputPath(s.tempFile.value)))
  {
  }

  /** The handler answers 200 exactly when every step, the record update
      included, succeeds. */
  lemma SucceedsExactlyWhenAllStepsSucceed(cfg: Config, s: VideoUploadSteps)
    requires ValidSteps(s)
    ensures HandleUploadVideo(cfg, s).status == StatusOK <==> ReachesUpload(s) && s.updateSucceeded
  {
    var o := HandleUploadVideo(cfg, s);
    assert o.status == StatusOK <==> o.stop == Done;
    if ReachesUpload(s) {
      assert o.stop == if s.updateSucceeded then Done else UpdateFailed;
    } else {
      assert o.update.None?;
    }
  }

  /** A temp file is created only for an authorized caller with an mp4 part. */
  lemma StagesOnlyAuthorizedMp4(cfg: Config, s: VideoUploadSteps)
    requires ValidSteps(s)
    ensures var o := HandleUploadVideo(cfg, s);
      o.staged.Some? ==> Authorized(s) && s.mediaType == Some(Mp4MediaType) && o.staged == s.tempFile
  {
  }

  /** The handler's checks, in the order the source performs them. */
  function VideoChecks(s: VideoUploadSteps): seq<Check<Stop>>
  {
    seq(14, k requires 0 <= k < 14 => VideoCheck(s, k))
  }

  function VideoCheck(s: VideoUploadSteps, k: nat): Check<Stop>
    requires k < 14
  {
    match k
    case 0 => Check(InvalidID, s.videoID.Some?)
    case 1 => Check(MissingToken, s.token.Some?)
    case 2 => Check(InvalidToken, s.userID.Some?)
    case 3 => Check(LookupFailed, s.record.Some?)
    case 4 => Check(NotOwner, s.record.Some? && s.userID.Some? && s.record.value.userID == s.userID.value)
    case 5 => Check(NoFormFile, s.mediaType.Some?)
    case 6 => Check(NotMp4, s.mediaType == Some(Mp4MediaType))
    case 7 => Check(TempFileFailed, s.tempFile.Some?)
    case 8 => Check(CopyFailed, s.copied)
    case 9 => Check(ProbeError, s.probe.Probed?)
    case 10 => Check(SeekFailed, s.rewound)
    case 11 => Check(FastStartFailed, s.fastStart)
    case 12 => Check(OpenFailed, s.outputOpened)
    case 13 => Check(UpdateFailed, s.updateSucceeded)
  }

  /** The handler stops at the first failing check of `VideoChecks`, and
      completes only when all pass. */
  lemma HandlerStopsAtFirstFailedCheck(cfg: Config, s: VideoUploadSteps)
    requires ValidSteps(s)
    ensures HandleUploadVideo(cfg, s).stop == FirstFailed(VideoChecks(s), Done)
  {
    var cs := VideoChecks(s);
    FirstFailedStep(cs, Done, 0);
    FirstFailedStep(cs, Done, 1);
    FirstFailedStep(cs, Done, 2);
    FirstFailedStep(cs, Done, 3);
    FirstFailedStep(cs, Done, 4);
    FirstFailedStep(cs, Done, 5);
    FirstFailedStep(cs, Done, 6);
    FirstFailedStep(cs, Done, 7);
    FirstFailedStep(cs, Done, 8);
    FirstFailedStep(cs, Done, 9);
    FirstFailedStep(cs, Done, 10);
    FirstFailedStep(cs, Done, 11);
    FirstFailedStep(cs, Done, 12);
    FirstFailedStep(cs, Done, 13);
    FirstFailedDone(cs, Done);
  }

  /** Every rejection before staging, in order, with its status: none of them
      creates a temp file, uploads anything or updates the record. */
  lemma RejectionsBeforeStaging(cfg: Config, s: VideoUploadSteps)
    requires ValidSteps(s)
    ensures var o := HandleUploadVideo(cfg, s);
      && (s.videoID.None? ==> o.status == StatusBadRequest)
      && (s.videoID.Some? && (s.token.None? || s.userID.None?) ==> o.status == StatusUnauthorized)
      && (s.videoID.Some? && s.token.Some? && s.userID.Some? && s.record.None? ==> o.status == StatusBadRequest)
      && (s.videoID.Some? && s.token.Some? && s.userID.Some? && s.record.Some? && s.record.value.userID != s.userID.value
          ==> o.status == StatusUnauthorized)
      && (Authorized(s) && s.mediaType.None? ==> o.status == StatusInternalServerError)
      && (Authorized(s) && s.mediaType.Some? && s.mediaType.value != Mp4MediaType ==> o.status == StatusBadRequest)
      && (!(Authorized(s) && s.mediaType == Some(Mp4MediaType)) ==>
            o.staged.None? && o.leftOnDisk.None? && o.put.None? && o.update.None?)
  {
  }

  /** The result of PutObject is never consulted: the outcome, and with it
      the record update, is the same whether the upload succeeded or not. */
  lemma OutcomeIgnoresPutResult(cfg: Config, s: VideoUploadSteps)
    requires ValidSteps(s)
    ensures HandleUploadVideo(cfg, s.(putSucceeded := false)) == HandleUploadVideo(cfg, s.(putSucceeded := true))
  {
  }

  /** A pipeline file stays on disk after the handler returns exactly when
      ffmpeg ran and its output was never opened: either ffmpeg failed after
      creating the output file, or it succeeded and `os.Open` of its output
      failed. The processed file's removal is deferred only after it has been
      opened, while the staged file's removal is deferred as soon as it
      exists. The file left behind is the staged path plus ".processing". */
  lemma ProcessedFileLeftBehind(cfg: Config, s: VideoUploadSteps)
    requires ValidSteps(s)
    ensures var o := HandleUploadVideo(cfg, s);
      && (o.leftOnDisk.Some? <==>
            ReachesUpload(s.(fastStart := true, outputOpened := true))
            && ((!s.fastStart && s.partialOutput) || (s.fastStart && !s.outputOpened)))
      && (o.leftOnDisk.Some? ==>
            o.leftOnDisk == Some(s.tempFile.value + ".processing") && o.status == StatusInternalServerError)
  {
  }

  /** The key of a successful upload: the category prefix, one '/', the
      43-character random name and ".mp4"; and the reference stored in the
      record reads back as this bucket and key. */
  lemma StoredReferenceReadsBack(cfg: Config, s: VideoUploadSteps)
    requires ValidSteps(s) && ReachesUpload(s)
    requires ',' !in cfg.s3Bucket
    ensures var key := UploadKey(s);
      && key == ObjectKey(KeyPrefix(s), s.random, "mp4")
      && KeyPrefix(s) in {"landscape", "portrait", "other"}
      && Split(key, '/') == [KeyPrefix(s), Encode(RawURLEncoding, s.random) + ".mp4"]
      && |Encode(RawURLEncoding, s.random)| == 43
      && ParseReference(HandleUploadVideo(cfg, s).update.value.videoURL.value) == Some((cfg.s3Bucket, key))
  {
    var first := s.probe.streams[0];
    assert s.mediaType.value == Mp4MediaType;
    Mp4Extension();
    assert UploadKey(s) == ObjectKey(KeyPrefix(s), s.random, "mp4");
    KeyPrefixIsCategory(first.width, first.height);
    Mp4Extension();
    ObjectKeyShape(KeyPrefix(s), s.random, "mp4");
    var e := Encode(RawURLEncoding, s.random);
    assert e + "." + "mp4" == e + ".mp4";
    RandomPartShape(s.random);
    ParseStoredReference(cfg.s3Bucket, UploadKey(s));
  }

  /** The end-to-end scenario: an owned mp4 upload probed at 1080x1920 with
      every step succeeding answers 200 and stores a "portrait/" key ending
      in ".mp4". */
  lemma PortraitUploadScenario(cfg: Config, s: VideoUploadSteps)
    requires ValidSteps(s) && ReachesUpload(s) && s.updateSucceeded
    requires s.probe.streams[0] == Dimensions(1080, 1920)
    ensures var o := HandleUploadVideo(cfg, s);
      && o.status == StatusOK
      && o.update.Some?
      && o.update.value.videoURL
         == Some(cfg.s3Bucket + "," + "portrait/" + Encode(RawURLEncoding, s.random) + ".mp4")
  {
    Examples();
    assert s.mediaType.value == Mp4MediaType;
    Mp4Extension();
    assert KeyPrefix(s) == "portrait";
    var e := Encode(RawURLEncoding, s.random);
    assert UploadKey(s) == "portrait" + "/" + e + "." + "mp4";
    assert UploadKey(s) == "portrait/" + e + ".mp4";
    assert StoredReference(cfg.s3Bucket, UploadKey(s)) == cfg.s3Bucket + "," + "portrait/" + e + ".mp4";
  }

  /** Go's `time.Duration` unit is the nanosecond. */
  const Minute := 60 * 1_000_000_000

  /** The expiry of presigned URLs: 60 minutes. */
  const PresignExpiry := 60 * Minute

  /** `generatePresignedURL`, an S3 call: bucket, key and expiry to a URL or an error. */
  type Presigner = (string, string, int) -> Result<string, string>

  /** `dbVideoToSignedVideo`. `VideoURL` must be set: the source dereferences it. */
  function SignVideo(video: Video, presign: Presigner): (r: (Video, Option<string>))
    requires video.videoURL.Some?
    ensures Count(video.videoURL.value, ',') != 1 ==> r == (video, None)
    ensures r.1.None? ==> r.0.(videoURL := video.videoURL) == video && r.0.videoURL.Some?
    ensures r.1.Some? ==> r.0 == ZeroVideo
    ensures ParseReference(video.videoURL.value).Some? ==>
      var (bucket, key) := ParseReference(video.videoURL.value).value;
      && StoredReference(bucket, key) == video.videoURL.value
      && match presign(bucket, key, PresignExpiry)
         case Success(url) => r == (video.(videoURL := Some(url)), None)
         case Failure(err) => r == (ZeroVideo, Some(err))
  {
    match ParseReference(video.videoURL.value)
    case None => (video, None)
    case Some((bucket, key)) =>
      match presign(bucket, key, PresignExpiry)
      case Failure(err) => (ZeroVideo, Some(err))
      case Success(url) => (video.(videoURL := Some(url)), None)
  }

  /** Any stored value of the form `bucket,key` with a comma-free bucket and
      key is presigned with exactly that bucket and key for 60 minutes: on
      success only `VideoURL` changes, to the presigned URL; on failure the
      zero record and the error come back. */
  lemma SignVideoPresignsEveryReference(video: Video, presign: Presigner, bucket: string, key: string)
    requires video.videoURL == Some(StoredReference(bucket, key))
    requires ',' !in bucket && ',' !in key
    ensures match presign(bucket, key, PresignExpiry)
      case Success(url) => SignVideo(video, presign) == (video.(videoURL := Some(url)), None)
      case Failure(err) => SignVideo(video, presign) == (ZeroVideo, Some(err))
  {
    ParseStoredReference(bucket, key);
  }

  /** Upload then display: resolving a record the handler updated presigns
      exactly the bucket and key the handler uploaded to, for 60 minutes, and
      changes nothing but `VideoURL`. */
  lemma SignedUploadPresignsUploadedObject(cfg: Config, s: VideoUploadSteps, presign: Presigner)
    requires ValidSteps(s) && ReachesUpload(s)
    requires ',' !in cfg.s3Bucket
    ensures var o := HandleUploadVideo(cfg, s);
      var r := SignVideo(o.update.value, presign);
      match presign(o.put.value.bucket, o.put.value.key, PresignExpiry)
      case Success(url) => r == (o.update.value.(videoURL := Some(url)), None)
      case Failure(err) => r == (ZeroVideo, Some(err))
  {
    StoredReferenceReadsBack(cfg, s);
  }

  /** A stored value that is not a two-piece reference, such as a plain URL
      without a comma, is passed through untouched and never presigned. */
  lemma PlainURLPassesThrough(video: Video, presign: Presigner)
    requires video.videoURL.Some? && ',' !in video.videoURL.value
    ensures SignVideo(video, presign) == (video, None)
  {
    CountAbsent(video.videoURL.value, ',');
  }
}
