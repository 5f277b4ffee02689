/** How the video handler names what it stores: the object key written to
    the bucket, the composite reference kept in the record, the extension
    taken from the media type, and the file paths handed to ffprobe and
    ffmpeg. */
module Storage {
  import opened Wrappers
  import opened GoStrings
  import opened Base64

  /** The only media type the video handler accepts. */
  const Mp4MediaType := "video/mp4"

  /** Number of random bytes drawn for each key. */
  const KeyRandomBytes := 32

  /** The extension: the last '/'-separated piece of the media type. */
  function Extension(mediaType: string): (ext: string)
    ensures '/' !in ext
    ensures |ext| <= |mediaType| && mediaType[|mediaType| - |ext|..] == ext
  {
    LastPiece(mediaType, '/')
  }

  /** The extension is the last element of `strings.Split(mediaType, "/")`. */
  lemma ExtensionIsLastSplitPiece(mediaType: string)
    ensures var parts := Split(mediaType, '/'); Extension(mediaType) == parts[|parts| - 1]
  {
    LastPieceIsLastOfSplit(mediaType, '/');
  }

  /** Once the media type is "video/mp4", the extension is "mp4". */
  lemma Mp4Extension()
    ensures Extension(Mp4MediaType) == "mp4"
  {
    assert LastIndexOf(Mp4MediaType, '/', 9) == 5;
  }

  /** The object key: `prefix + "/" + RawURLEncoding(random) + "." + ext`. */
  function ObjectKey(prefix: string, random: seq<byte>, ext: string): string
  {
    prefix + "/" + Encode(RawURLEncoding, random) + "." + ext
  }

  /** The encoded random part of a key: 43 characters for 32 bytes, none of
      them '/', '+', '=', ',' or '.'. */
  lemma RandomPartShape(random: seq<byte>)
    requires |random| == KeyRandomBytes
    ensures var r := Encode(RawURLEncoding, random);
      && |r| == 43
      && forall i :: 0 <= i < |r| ==> r[i] !in {'/', '+', '=', ',', '.'}
  {
    var r := Encode(RawURLEncoding, random);
    EncodeAlphabet(RawURLEncoding, random);
    forall i | 0 <= i < |r|
      ensures r[i] !in {'/', '+', '=', ',', '.'}
    {
      assert EncodedChar(RawURLEncoding, r[i], i, |r|);
      UrlSafeSymbolIsPlain(r[i]);
    }
  }

  /** With a slash- and comma-free prefix and extension, a key holds exactly
      one '/', right after the prefix, and no ','. Splitting it on '/' gives
      back the prefix and the file name. */
  lemma ObjectKeyShape(prefix: string, random: seq<byte>, ext: string)
    requires |random| == KeyRandomBytes
    requires '/' !in prefix && '/' !in ext && ',' !in prefix && ',' !in ext
    ensures var key := ObjectKey(prefix, random, ext);
      && key[|prefix|] == '/'
      && (forall i :: 0 <= i < |key| && key[i] == '/' ==> i == |prefix|)
      && ',' !in key
      && Count(key, '/') == 1
      && Split(key, '/') == [prefix, Encode(RawURLEncoding, random) + "." + ext]
  {
    var r := Encode(RawURLEncoding, random);
    RandomPartShape(random);
    var name := r + "." + ext;
    var key := ObjectKey(prefix, random, ext);
    assert key == prefix + ['/'] + name;
    assert '/' !in name && ',' !in name by {
      forall i | 0 <= i < |name| ensures name[i] != '/' && name[i] != ',' {
        if i < |r| {
          assert name[i] == r[i];
        } else if i > |r| {
          assert name[i] == ext[i - |r| - 1];
        }
      }
    }
    SplitJoin([prefix, name], '/');
    SplitLength(key, '/');
  }

  /** Different random draws give different keys under the same prefix and
      extension, so key uniqueness rests on the randomness alone. */
  lemma ObjectKeyInjective(prefix: string, r1: seq<byte>, r2: seq<byte>, ext: string)
    requires ObjectKey(prefix, r1, ext) == ObjectKey(prefix, r2, ext)
    ensures r1 == r2
  {
    var e1 := Encode(RawURLEncoding, r1);
    var e2 := Encode(RawURLEncoding, r2);
    var k := ObjectKey(prefix, r1, ext);
    assert |e1| == |e2|;
    assert e1 == k[|prefix| + 1..|prefix| + 1 + |e1|];
    assert e2 == k[|prefix| + 1..|prefix| + 1 + |e2|];
    EncodeInjective(RawURLEncoding, r1, r2);
  }

  /** The reference stored in `VideoURL`: `fmt.Sprintf("%v,%v", bucket, key)`. */
  function StoredReference(bucket: string, key: string): string
  {
    bucket + "," + key
  }

  /** `dbVideoToSignedVideo`'s reading of a stored reference: split on ','
      and use the two pieces as bucket and key when there are exactly two. */
  function ParseReference(ref: string): (r: Option<(string, string)>)
    ensures r.Some? <==> Count(ref, ',') == 1
    ensures r.Some? ==> ',' !in r.value.0 && ',' !in r.value.1
    ensures r.Some? ==> StoredReference(r.value.0, r.value.1) == ref
  {
    var parts := Split(ref, ',');
    SplitLength(ref, ',');
    JoinSplit(ref, ',');
    if |parts| == 2 then
      assert Join(parts, ',') == parts[0] + [','] + parts[1];
      Some((parts[0], parts[1]))
    else None
  }

  /** Round trip: the reference written for a comma-free bucket and key reads
      back as exactly that bucket and key. */
  lemma ParseStoredReference(bucket: string, key: string)
    requires ',' !in bucket && ',' !in key
    ensures ParseReference(StoredReference(bucket, key)) == Some((bucket, key))
  {
    assert StoredReference(bucket, key) == Join([bucket, key], ',');
    SplitJoin([bucket, key], ',');
  }

  /** A suffix the fast-start output path adds to the staged file's path. */
  const ProcessingSuffix := ".processing"

  /** `processVideoForFastStart`'s output path. */
  function FastStartOutputPath(path: string): (out: string)
    ensures out != path
    ensures |out| == |path| + |ProcessingSuffix| && out[..|path|] == path
  {
    path + ProcessingSuffix
  }

  /** Distinct staged files get distinct output paths. */
  lemma FastStartOutputPathInjective(p1: string, p2: string)
    requires FastStartOutputPath(p1) == FastStartOutputPath(p2)
    ensures p1 == p2
  {
    assert p1 == FastStartOutputPath(p1)[..|p1|];
    assert p2 == FastStartOutputPath(p2)[..|p2|];
  }
}
