/** `handlerUploadThumbnail`: the thumbnail is not stored in a bucket but
    inlined into the record as an RFC 2397 data URL whose payload is the
    standard, padded base64 encoding of the uploaded bytes. */
module ThumbnailUpload {
  import opened Wrappers
  import opened GoStrings
  import opened Base64
  import opened Records
  import opened Checks

  const DataScheme := "data:"
  const Base64Marker := ";base64"

  /** `fmt.Sprintf("data:%v;base64,%v", mediaType, base64.StdEncoding.EncodeToString(data))`.
      Its tail, 4 * ceil(n / 3) characters long, decodes back to the bytes. */
  function DataURL(mediaType: string, data: seq<byte>): (url: string)
    ensures |url| == |DataScheme| + |mediaType| + |Base64Marker| + 1 + 4 * ((|data| + 2) / 3)
    ensures url[..|DataScheme|] == DataScheme
    ensures Decode(StdEncoding, url[|url| - 4 * ((|data| + 2) / 3)..]) == Some(data)
  {
    var payload := Encode(StdEncoding, data);
    var url := DataScheme + mediaType + Base64Marker + "," + payload;
    assert url[|url| - |payload|..] == payload;
    DecodeEncode(StdEncoding, data);
    url
  }

  /** Reads a base64 data URL back into its media type and bytes: the header
      runs from "data:" to the first ',' and must end in ";base64". */
  function ParseDataURL(url: string): Option<(string, seq<byte>)>
  {
    match SplitDataURL(url)
    case None => None
    case Some((mediaType, payload)) =>
      match Decode(StdEncoding, payload)
      case None => None
      case Some(data) => Some((mediaType, data))
  }

  /** The media type and the payload of a base64 data URL: the header runs
      from "data:" to the first ',' and must end in ";base64". */
  function SplitDataURL(url: string): (r: Option<(string, string)>)
    ensures r.Some? ==> url == DataScheme + r.value.0 + Base64Marker + "," + r.value.1
  {
    if |url| < |DataScheme| || url[..|DataScheme|] != DataScheme then None
    else
      var rest := url[|DataScheme|..];
      var i := IndexOf(rest, ',');
      if i < 0 then None
      else
        var header := rest[..i];
        if |header| < |Base64Marker| || header[|header| - |Base64Marker|..] != Base64Marker then None
        else
          var mediaType := header[..|header| - |Base64Marker|];
          var payload := rest[i + 1..];
          assert header == mediaType + Base64Marker;
          assert rest == header + [','] + payload;
          assert url == url[..|DataScheme|] + rest;
          Some((mediaType, payload))
  }

  /** Round trip: a data URL built for a comma-free media type parses back to
      that media type and those bytes. */
  lemma ParseDataURLOfDataURL(mediaType: string, data: seq<byte>)
    requires ',' !in mediaType
    ensures ParseDataURL(DataURL(mediaType, data)) == Some((mediaType, data))
  {
    var payload := Encode(StdEncoding, data);
    var url := DataURL(mediaType, data);
    var header := mediaType + Base64Marker;
    assert url == DataScheme + (header + [','] + payload);
    var rest := url[|DataScheme|..];
    assert rest == header + [','] + payload;
    assert ',' !in header by {
      forall k | 0 <= k < |header| ensures header[k] != ',' {
        if k >= |mediaType| {
          assert header[k] == Base64Marker[k - |mediaType|];
        }
      }
    }
    IndexOfAfterFree(header, payload, ',');
    assert rest[..|header|] == header;
    assert rest[|header| + 1..] == payload;
    assert header[..|header| - |Base64Marker|] == mediaType;
    DecodeEncode(StdEncoding, data);
  }

  /** Whatever parses is exactly the data URL of what it parses to. */
  lemma DataURLOfParsed(url: string)
    requires ParseDataURL(url).Some?
    ensures DataURL(ParseDataURL(url).value.0, ParseDataURL(url).value.1) == url
  {
    ParsedDataURLShape(url);
  }

  /** A parsed URL is "data:", the media type, ";base64,", and the encoding of the bytes. */
  lemma ParsedDataURLShape(url: string)
    requires ParseDataURL(url).Some?
    ensures url == DataScheme + ParseDataURL(url).value.0 + Base64Marker + ","
                   + Encode(StdEncoding, ParseDataURL(url).value.1)
  {
    EncodeDecode(StdEncoding, SplitDataURL(url).value.1);
  }

  /** The results of the handler's external steps. */
  datatype ThumbnailSteps = ThumbnailSteps(
    videoID: Option<Uuid>,       // uuid.Parse of the "videoID" path value
    token: Option<string>,       // auth.GetBearerToken
    userID: Option<Uuid>,        // auth.ValidateJWT of that token
    contentType: Option<string>, // r.FormFile("thumbnail"), then the part's raw Content-Type header
    data: Option<seq<byte>>,     // io.ReadAll of the part
    record: Option<Video>,       // cfg.db.GetVideo(videoID)
    updateSucceeded: bool)       // cfg.db.UpdateVideo

  /** Where the handler stops. */
  datatype Stop =
    | InvalidID | MissingToken | InvalidToken | NoFormFile | ReadFailed
    | LookupFailed | NotOwner | UpdateFailed | Done

  function StatusOf(stop: Stop): int
  {
    match stop
    case InvalidID => StatusBadRequest
    case MissingToken => StatusUnauthorized
    case InvalidToken => StatusUnauthorized
    case NoFormFile => StatusBadRequest
    case ReadFailed => StatusBadRequest
    case LookupFailed => StatusBadRequest
    case NotOwner => StatusUnauthorized
    case UpdateFailed => StatusInternalServerError
    case Done => StatusOK
  }

  datatype ThumbnailOutcome = ThumbnailOutcome(
    status: int,
    stop: Stop,
    bytesRead: bool,        // the uploaded bytes were read into memory
    update: Option<Video>,  // the record handed to UpdateVideo
    body: Option<Video>)    // the record written back as JSON

  /** The caller is authenticated, the part was read, and the caller owns the record. */
  predicate ReachesUpdate(s: ThumbnailSteps)
  {
    && s.videoID.Some? && s.token.Some? && s.userID.Some?
    && s.contentType.Some? && s.data.Some? && s.record.Some?
    && s.record.value.userID == s.userID.value
  }

  function Stopped(stop: Stop, bytesRead: bool): ThumbnailOutcome
  {
    ThumbnailOutcome(StatusOf(stop), stop, bytesRead, None, None)
  }

  /** `handlerUploadThumbnail`. */
  function HandleUploadThumbnail(s: ThumbnailSteps): (o: ThumbnailOutcome)
    ensures o.status == StatusOf(o.stop)
    ensures o.update.Some? <==> ReachesUpdate(s)
    ensures o.update.Some? ==>
      o.update.value == s.record.value.(thumbnailURL := Some(DataURL(s.contentType.value, s.data.value)))
    ensures o.body.Some? <==> o.stop == Done
    ensures o.body.Some? ==> o.body == o.update
  {
    if s.videoID.None? then Stopped(InvalidID, false)
    else if s.token.None? then Stopped(MissingToken, false)
    else if s.userID.None? then Stopped(InvalidToken, false)
    else if s.contentType.None? then Stopped(NoFormFile, false)
    else if s.data.None? then Stopped(ReadFailed, false)
    else if s.record.None? then Stopped(LookupFailed, true)
    else if s.record.value.userID != s.userID.value then Stopped(NotOwner, true)
    else
      var updated := s.record.value.(thumbnailURL := Some(DataURL(s.contentType.value, s.data.value)));
      if s.updateSucceeded then ThumbnailOutcome(StatusOK, Done, true, Some(updated), Some(updated))
      else ThumbnailOutcome(StatusInternalServerError, UpdateFailed, true, Some(updated), None)
  }

  /** The handler's checks, in the order the source performs them. */
  function ThumbnailChecks(s: ThumbnailSteps): seq<Check<Stop>>
  {
    seq(8, k requires 0 <= k < 8 => ThumbnailCheck(s, k))
  }

  function ThumbnailCheck(s: ThumbnailSteps, k: nat): Check<Stop>
    requires k < 8
  {
    match k
    case 0 => Check(InvalidID, s.videoID.Some?)
    case 1 => Check(MissingToken, s.token.Some?)
    case 2 => Check(InvalidToken, s.userID.Some?)
    case 3 => Check(NoFormFile, s.contentType.Some?)
    case 4 => Check(ReadFailed, s.data.Some?)
    case 5 => Check(LookupFailed, s.record.Some?)
    case 6 => Check(NotOwner, s.record.Some? && s.userID.Some? && s.record.value.userID == s.userID.value)
    case 7 => Check(UpdateFailed, s.updateSucceeded)
  }

  /** The handler stops at the first failing check of `ThumbnailChecks`, and
      completes only when all pass. */
  lemma HandlerStopsAtFirstFailedCheck(s: ThumbnailSteps)
    ensures HandleUploadThumbnail(s).stop == FirstFailed(ThumbnailChecks(s), Done)
  {
    var cs := ThumbnailChecks(s);
    FirstFailedStep(cs, Done, 0);
    FirstFailedStep(cs, Done, 1);
    FirstFailedStep(cs, Done, 2);
    FirstFailedStep(cs, Done, 3);
    FirstFailedStep(cs, Done, 4);
    FirstFailedStep(cs, Done, 5);
    FirstFailedStep(cs, Done, 6);
    FirstFailedStep(cs, Done, 7);
    FirstFailedDone(cs, Done);
  }

  /** Identity checks come before the form is read: a bad id answers 400 and
      a missing or invalid token 401, with nothing read. A missing form file,
      a failed read and a failed lookup answer 400; an owner mismatch answers
      401 after the bytes were read. None of them updates the record. */
  lemma Rejections(s: ThumbnailSteps)
    ensures var o := HandleUploadThumbnail(s);
      var authenticated := s.videoID.Some? && s.token.Some? && s.userID.Some?;
      var read := authenticated && s.contentType.Some? && s.data.Some?;
      && (s.videoID.None? ==> o.status == StatusBadRequest && !o.bytesRead)
      && (s.videoID.Some? && (s.token.None? || s.userID.None?) ==> o.status == StatusUnauthorized && !o.bytesRead)
      && (authenticated && (s.contentType.None? || s.data.None?) ==> o.status == StatusBadRequest && !o.bytesRead)
      && (read ==> o.bytesRead)
      && (read && s.record.None? ==> o.status == StatusBadRequest)
      && (read && s.record.Some? && s.record.value.userID != s.userID.value ==> o.status == StatusUnauthorized)
      && (!ReachesUpdate(s) ==> o.update.None? && o.body.None?)
  {
  }

  /** On the update path only `ThumbnailURL` changes, and it holds a data URL
      that reads back as the part's media type and bytes. The handler answers
      200 with the updated record when the update succeeds, 500 otherwise. */
  lemma UpdateChangesOnlyThumbnail(s: ThumbnailSteps)
    requires ReachesUpdate(s)
    requires ',' !in s.contentType.value
    ensures var o := HandleUploadThumbnail(s);
      && o.update.value.(thumbnailURL := s.record.value.thumbnailURL) == s.record.value
      && ParseDataURL(o.update.value.thumbnailURL.value) == Some((s.contentType.value, s.data.value))
      && (s.updateSucceeded ==> o.status == StatusOK && o.body == o.update)
      && (!s.updateSucceeded ==> o.status == StatusInternalServerError && o.body.None?)
  {
    ParseDataURLOfDataURL(s.contentType.value, s.data.value);
  }
}
