# Tubely upload handlers

This project models two HTTP handlers of a video-sharing service:

- `handlerUploadVideo` accepts an mp4 upload and stages it in a temp file.
  - It classifies the first stream's aspect ratio with ffprobe, rewrites the file for fast start with ffmpeg, and uploads the result to S3.
  - The object key is `<category>/<random name>.mp4`.
  - It stores `bucket,key` in the record's `VideoURL`.
- `dbVideoToSignedVideo` reads `VideoURL` back and presigns the object for 60 minutes.
- `handlerUploadThumbnail` reads an image part and stores it in the record's `ThumbnailURL`. The value is an RFC 2397 data URL with a standard base64 payload.

Both handlers are pure functions here, from the results of their external steps to their outcome. Those steps are:

- UUID parsing, bearer token and JWT validation.
- Database lookup and update.
- Multipart parsing, temp files.
- ffprobe, ffmpeg, S3, and the random bytes.

The outcome is the status code, where the handler stopped, the files it leaves behind, the upload it issues, and the record it writes.

The status codes are the handlers' own:

- A failed lookup answers 400 and a non-owner 401.
- A form-file failure answers 500 in the video handler and 400 in the thumbnail handler.
- The video handler never consults PutObject's error, so the record is updated whatever the upload's outcome.
- The fast-start output file is removed only if it was opened. A failed ffmpeg run that wrote part of it, or a failed open, leaves it on disk.

The modules follow the program's structure:

- `GoStrings`: Go's `strings.Split` with a one-character separator, its inverse `Join`, and the last piece of a split.
- `Base64`: RFC 4648.
  - `StdEncoding`: section 4, padded.
  - `RawURLEncoding`: section 5, unpadded as section 3.2 permits.
  - Each has an encoder and a strict decoder that is its inverse.
- `Aspect`: the aspect-ratio bands and the `aspectMap` lookup.
- `Storage`: the object key, the stored `bucket,key` reference and its parser, the extension, and the fast-start output path.
- `Checks`: a handler as an ordered table of checks. It serves as the reference definition of "stops at the first failing check".
- `VideoUpload` and `ThumbnailUpload`: the two handlers.
- `Records`, `Wrappers`: the `Video` record, the status codes, and `Option`/`Result`.

## Model

| member | source | states |
|---|---|---|
| GoStrings.Split | handler_upload_video.go:119-120 | `strings.Split` on one character always yields at least one piece, and no piece contains the separator |
| GoStrings.JoinSplit | handler_upload_video.go:178 | joining the pieces of a split with the separator gives back the original string |
| GoStrings.SplitJoin | handler_upload_video.go:178 | splitting a join of separator-free pieces gives back exactly those pieces |
| GoStrings.SplitLength | handler_upload_video.go:178-180 | a split has one more piece than the string has separators |
| GoStrings.LastPieceIsLastOfSplit | handler_upload_video.go:119-120 | the suffix after the last separator is the last element of the split |
| Base64.Encode | handler_upload_video.go:149 | padded output is 4*ceil(n/3) characters long; unpadded output is ceil(4n/3) characters long |
| Base64.EncodeAlphabet | handler_upload_thumbnail.go:58 | every character is a symbol of the encoding's alphabet, except '=' padding, which appears only in a padded encoding and only in the last two positions |
| Base64.DecodeEncode | handler_upload_thumbnail.go:58 | decoding an encoding returns the original bytes (both encodings) |
| Base64.EncodeDecode | handler_upload_thumbnail.go:58 | whatever the strict decoder accepts is the encoding of what it returns |
| Base64.DecodeIffEncode | handler_upload_thumbnail.go:58 | `Decode(e, t) == Some(s)` holds exactly when `Encode(e, s) == t` |
| Base64.EncodeInjective | handler_upload_video.go:149 | distinct byte strings have distinct encodings |
| Aspect.AspectRatioLabel | handler_upload_video.go:42-51 | the tag is always one of "9:16", "16:9" or "other" |
| Aspect.AspectRatioLabelMatchesQuotient | handler_upload_video.go:42-51 | for every non-zero height, the integer classification equals the band classification of the exact quotient width/height (0.5..0.6 is "9:16", 1.7..1.8 is "16:9", else "other") |
| Aspect.PositiveHeightMatchesQuotient | handler_upload_video.go:44-50 | the same agreement for positive heights, where the cross-multiplied bands are compared directly |
| Aspect.BandsDisjoint | handler_upload_video.go:46-50 | no quotient lies in both bands, so the tag is unique |
| Aspect.Examples | handler_upload_video.go:46-50 | 1080x1920 is "9:16", 1920x1080 is "16:9", 1000x1000 is "other" |
| Aspect.AspectPrefix | handler_upload_video.go:137-142 | the map sends "16:9" to landscape, "9:16" to portrait and "other" to other (each an iff), and any other tag to Go's zero value "" |
| Aspect.KeyPrefixIsCategory | handler_upload_video.go:137-142 | the classification composed with the map is never "": always landscape, portrait or other, with no '/' or ',' |
| Storage.Extension | handler_upload_video.go:119-120 | the extension is a suffix of the media type that contains no '/' |
| Storage.ExtensionIsLastSplitPiece | handler_upload_video.go:119-120 | the extension is the last element of the media type split on "/" |
| Storage.Mp4Extension | handler_upload_video.go:115-120 | the accepted media type "video/mp4" has extension "mp4" |
| Storage.RandomPartShape | handler_upload_video.go:147-149 | the encoded 32 random bytes are exactly 43 characters, none of them '/', '+', '=', ',' or '.' |
| Storage.ObjectKeyShape | handler_upload_video.go:149 | the key holds exactly one '/', right after the prefix, and no ','; splitting it on '/' gives the prefix and `E.ext` |
| Storage.ObjectKeyInjective | handler_upload_video.go:147-149 | different random draws give different keys under the same prefix and extension |
| Storage.ParseReference | handler_upload_video.go:178-185 | a reference is read as (bucket, key) exactly when it contains one ','; the two parts are comma-free and rebuild the reference |
| Storage.ParseStoredReference | handler_upload_video.go:178-182 | the reference `bucket,key` written at line 169, for a comma-free bucket and key, reads back as exactly that bucket and key |
| Storage.FastStartOutputPath | handler_upload_video.go:55 | the output path extends the input path and differs from it |
| Storage.FastStartOutputPathInjective | handler_upload_video.go:55 | distinct staged files get distinct output paths |
| VideoUpload.HandleUploadVideo | handler_upload_video.go:79-175 | the status is the one the stop dictates; the record is updated exactly when every step through opening the processed file succeeds; the update sets `VideoURL` to `bucket,key` and keeps every other field |
| VideoUpload.HandlerStopsAtFirstFailedCheck | handler_upload_video.go:82-174 | the handler stops at the first failing check of its table, in source order (id, token, JWT, lookup, owner, form file, mp4, temp file, copy, probe, seek, ffmpeg, open, update), and completes only when all pass |
| VideoUpload.RejectionsBeforeStaging | handler_upload_video.go:82-118 | bad id 400, missing or invalid token 401, failed lookup 400, not the owner 401, no form file 500, not mp4 400; none of these stages a file, uploads or updates |
| VideoUpload.StagesOnlyAuthorizedMp4 | handler_upload_video.go:103-126 | a temp file is created only for the record's owner uploading "video/mp4" |
| VideoUpload.UploadedExactlyWhenUpdated | handler_upload_video.go:162-171 | the processed file is uploaded to the configured bucket under the derived key with the media type exactly when the record is updated |
| VideoUpload.SucceedsExactlyWhenAllStepsSucceed | handler_upload_video.go:150-175 | the handler answers 200 exactly when every step, including the record update, succeeds |
| VideoUpload.OutcomeIgnoresPutResult | handler_upload_video.go:168-174 | the outcome and the record update are the same whether PutObject succeeded or failed |
| VideoUpload.ProcessedFileLeftBehind | handler_upload_video.go:150-161 | a file is left on disk exactly when ffmpeg ran and its output was never opened: ffmpeg failed after creating its output file, or it succeeded and opening the output failed; the file is the staged path plus ".processing", with status 500 |
| VideoUpload.StoredReferenceReadsBack | handler_upload_video.go:147-170 | on success the key is `<category>/<43 chars>.mp4`, and the stored `VideoURL` reads back as (bucket, key) |
| VideoUpload.PortraitUploadScenario | handler_upload_video.go:132-170 | an owned mp4 probed at 1080x1920 with every step succeeding answers 200 and stores `bucket,portrait/E.mp4` |
| VideoUpload.SignVideo | handler_upload_video.go:177-192 | a value whose ',' count is not one passes through unchanged; a value that parses as (bucket, key) is presigned with that bucket and key for 60 minutes, giving the record with only `VideoURL` replaced on success, and the zero `Video` with the error on failure |
| VideoUpload.SignVideoPresignsEveryReference | handler_upload_video.go:178-191 | every value `bucket,key` with a comma-free bucket and key is presigned with exactly that bucket and key, with the exact result for both presign outcomes |
| VideoUpload.SignedUploadPresignsUploadedObject | handler_upload_video.go:169-191 | presigning an uploaded record signs exactly the bucket and key the handler uploaded to |
| VideoUpload.PlainURLPassesThrough | handler_upload_video.go:178-185 | a stored value without ',' is returned unchanged and never presigned |
| ThumbnailUpload.DataURL | handler_upload_thumbnail.go:58-59 | the data URL starts with "data:", its length is fixed by the media type and 4*ceil(n/3), and its payload decodes to the uploaded bytes |
| ThumbnailUpload.ParseDataURLOfDataURL | handler_upload_thumbnail.go:58-60 | a data URL built for a comma-free media type parses back to that media type and those bytes |
| ThumbnailUpload.DataURLOfParsed | handler_upload_thumbnail.go:58-59 | every string the parser accepts is exactly the data URL of what it parses to |
| ThumbnailUpload.HandleUploadThumbnail | handler_upload_thumbnail.go:13-67 | the status is the one the stop dictates; the record is updated exactly when the caller is authenticated, the part is read and the caller owns the record; the update sets `ThumbnailURL` to the data URL; the record is written back exactly on 200 |
| ThumbnailUpload.HandlerStopsAtFirstFailedCheck | handler_upload_thumbnail.go:14-66 | the handler stops at the first failing check of its table, in source order (id, token, JWT, form file, read, lookup, owner, update) |
| ThumbnailUpload.Rejections | handler_upload_thumbnail.go:14-57 | bad id 400 and missing or invalid token 401 before the form is read; missing form file, failed read and failed lookup 400; not the owner 401 after the bytes were read; none of these updates the record |
| ThumbnailUpload.UpdateChangesOnlyThumbnail | handler_upload_thumbnail.go:58-66 | only `ThumbnailURL` changes, it reads back as the media type and bytes, and the handler answers 200 with the record or 500 with no body |

## Left out

- ffprobe and ffmpeg are not run, and ffprobe's JSON is not parsed. The probe result (a failure or the stream dimensions) and ffmpeg's success are inputs. Their exact argument lists are not modelled.
- VideoUpload.HandleUploadVideo: requires a successful probe to report at least one stream. The source indexes `Streams[0]` unchecked and panics on an empty list.
- VideoUpload.HandleUploadVideo: requires exactly 32 random bytes. `crypto/rand` is not modelled; the bytes are an input, and key uniqueness is probabilistic.
- Aspect.AspectRatioLabel: compares exactly where Go compares rounded `float64` quotients. The two agree for |width|, |height| below 2^26, where no quotient falls within rounding distance of a band limit. Go's conversion of a wider `int` to `float64` is not modelled either.
- S3 `PutObject` and `PresignGetObject` are not modelled. The put's result is an input the handler ignores. The presigner is a function parameter from bucket, key and expiry to a URL or an error. Credentials and region are out of scope.
- `uuid.Parse`, `auth.GetBearerToken`, `auth.ValidateJWT`, database access, `r.FormFile`, `io.Copy`, `io.ReadAll`, `Seek`, `os.CreateTemp` and `os.Open` are not modelled. Each contributes its success or its value as an input.
- `mime.ParseMediaType` is an input. It yields the bare media type, or "" when the header does not parse (the source discards the error). The thumbnail handler takes the raw `Content-Type` header.
- `http.MaxBytesReader`, multipart memory limits, response bodies and error-message texts are not modelled. The response body is represented only as the record the thumbnail handler writes back.
- The thumbnail handler's `fmt.Println` log line is left out.
- Whether a failed ffmpeg run leaves its output file is an input to the video handler. ffmpeg's behaviour on failure is not modelled.
- Deferred `Close` calls are left out. Deferred removals appear only as which files remain after the handler returns.
- On success the video handler writes no response. Go's net/http then answers 200 with an empty body, which is how it is modelled.
- VideoUpload.SignVideo: requires `VideoURL` to be set, because the source dereferences it unchecked and panics when it is nil.
- There is no concurrency between requests in the handlers, so none is modelled.
