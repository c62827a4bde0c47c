/**
 * The global, content-addressed media store: a file system under the media
 * root, a hash-to-reference registry with one section for images and one
 * for videos, the resolution of references to paths, the self-healing
 * registry scans, the attach pipeline, overlay saving and deletion.
 */
module MediaStore {
  import opened Wrappers
  import opened Text
  import opened MediaRefs

  type Bytes = seq<bv8>

  /** A decoded image (the PIL `Image` handed between the functions). */
  datatype Picture = Picture(width: nat, height: nat, pixels: seq<int>)

  /**
   * The image and hashing library, as functions the store is given:
   * - `decode(data, heic)`: `decode_upload_to_pil`, `None` where it raises;
   * - `open`: `Image.open` of a stored file, `None` where it raises;
   * - `toRgb`: `convert("RGB")`;
   * - `pilHash`: `_compute_pil_hash`, the SHA-256 hex digest of the picture re-encoded as a quality-95 JPEG;
   * - `storeJpeg`: the bytes `pil_to_jpg` writes (downscaled, quality 90);
   * - `storePng`: the bytes of the RGBA PNG an overlay is saved as;
   * - `sha256`: `_compute_file_hash`, the SHA-256 hex digest of raw bytes.
   */
  datatype Codec = Codec(
    decode: (Bytes, bool) -> Option<Picture>,
    open: Bytes -> Option<Picture>,
    toRgb: Picture -> Picture,
    pilHash: Picture -> string,
    storeJpeg: Picture -> Bytes,
    storePng: Picture -> Bytes,
    sha256: Bytes -> string)

  /** The registry section a media type uses: "image" and everything else ("video"). */
  datatype Kind = ImageKind | VideoKind

  /** The directory of each kind of base media under the media root. */
  function KindDir(kind: Kind): string
  {
    if kind == ImageKind then "base_images" else "base_videos"
  }

  /** The lowercased extensions a registry scan accepts. */
  function KindExtensions(kind: Kind): seq<string>
  {
    if kind == ImageKind then [".jpg", ".jpeg", ".png"] else [".mp4", ".mov", ".avi", ".mkv", ".webm"]
  }

  /** A kind's directory is a plain relative name starting with `b`. */
  lemma KindDirShape(kind: Kind)
    ensures var d := KindDir(kind); |d| > 1 && d[0] == 'b' && d[|d| - 1] != '/' && !IsAbs(d)
  {
  }

  lemma OverlaysDirShape()
    ensures var d := "overlays"; |d| > 1 && d[0] == 'o' && d[|d| - 1] != '/' && !IsAbs(d)
  {
  }

  /** A name starting with a lowercase letter carries none of the generated-name prefixes and is relative. */
  lemma LowerStartUnprefixed(ref: string)
    requires ref != [] && 'a' <= ref[0] <= 'z'
    ensures !StartsWith(ref, BaseImagePrefix) && !StartsWith(ref, BaseVideoPrefix) && !StartsWith(ref, OverlayPrefix)
    ensures !IsAbs(ref)
  {
    assert BaseImagePrefix[0] == 'M' && BaseVideoPrefix[0] == 'M' && OverlayPrefix[0] == 'C';
  }

  /** The store reference of a file `fn` in the directory of `kind`. */
  function KindRef(kind: Kind, fn: string): string
  {
    KindDir(kind) + "/" + fn
  }

  /** An uploaded file object: its bytes and its `name` attribute, if it has one. */
  datatype Upload = Upload(data: Bytes, name: Option<string>)

  /** What the image branch of the attach pipeline obtained from its inputs. */
  datatype Decoded = NoInput | DecodeFailed | Decoded(picture: Picture)

  /** What `attach_media` gives back: a reference, `None`, or an exception (from the decoder, or from a refused write). */
  datatype Outcome = Attached(ref: string) | NotAttached | Raised

  /** The path of `fn` in the directory `dir` under the media root. */
  function MediaPath(root: string, dir: string, fn: string): string
  {
    PathJoin(PathJoin(root, dir), fn)
  }

  /** The content hash a registry scan computes for a stored file, `None` where reading it raises. */
  function ContentHash(codec: Codec, kind: Kind, data: Bytes): Option<string>
  {
    if kind == VideoKind then Some(codec.sha256(data))
    else
      match codec.open(data)
      case None => None
      case Some(p) => Some(codec.pilHash(p))
  }

  /**
   * What one iteration of a registry scan learns about the listed name
   * `fn`: its content hash when it has an accepted extension and names a
   * readable file; `None` where the loop skips it. The self-healing scans
   * (`strict`) also skip an empty digest, `rebuild_media_registry` does not.
   */
  function Probe(codec: Codec, files: map<string, Bytes>, root: string, kind: Kind, strict: bool, fn: string): Option<string>
  {
    if Extension(Lower(fn)) !in KindExtensions(kind) then None
    else
      var path := MediaPath(root, KindDir(kind), fn);
      if path !in files then None
      else
        match ContentHash(codec, kind, files[path])
        case None => None
        case Some(h) => if h != "" || !strict then Some(h) else None
  }

  /** The probe of one kind over a snapshot of the codec, the files and the media root. */
  function ProbeWith(codec: Codec, files: map<string, Bytes>, root: string, kind: Kind, strict: bool): string -> Option<string>
  {
    (fn: string) => Probe(codec, files, root, kind, strict, fn)
  }

  /** One iteration of the scan loop: a new hash is registered, a known one is left alone. */
  function ScanStep(probe: string -> Option<string>, kind: Kind, reg: map<string, string>, fn: string): map<string, string>
  {
    match probe(fn)
    case None => reg
    case Some(h) => if h in reg then reg else reg[h := KindRef(kind, fn)]
  }

  /** `_scan_base_images_and_register` / `_scan_base_videos_and_register` over a directory listing. */
  function Scanned(probe: string -> Option<string>, kind: Kind, reg: map<string, string>, listing: seq<string>): map<string, string>
  {
    if listing == [] then reg
    else ScanStep(probe, kind, Scanned(probe, kind, reg, listing[..|listing| - 1]), listing[|listing| - 1])
  }

  /** A scan from empty registers one entry per distinct hash found. */
  lemma FreshScanSize(probe: string -> Option<string>, kind: Kind, listing: seq<string>)
    ensures |Scanned(probe, kind, map[], listing)| == |ProbedHashes(probe, listing)|
  {
    ScanKeys(probe, kind, map[], listing);
    assert Scanned(probe, kind, map[], listing).Keys == ProbedHashes(probe, listing);
  }

  /** Scanning one more entry of the listing is one more scan step. */
  lemma ScannedSnoc(probe: string -> Option<string>, kind: Kind, reg: map<string, string>, listing: seq<string>, i: nat)
    requires i < |listing|
    ensures Scanned(probe, kind, reg, listing[..i + 1]) == ScanStep(probe, kind, Scanned(probe, kind, reg, listing[..i]), listing[i])
  {
    assert listing[..i + 1][..i] == listing[..i];
  }

  lemma StepKeeps(probe: string -> Option<string>, kind: Kind, reg: map<string, string>, fn: string)
    ensures forall h :: h in reg ==> h in ScanStep(probe, kind, reg, fn) && ScanStep(probe, kind, reg, fn)[h] == reg[h]
    ensures probe(fn).Some? ==> probe(fn).value in ScanStep(probe, kind, reg, fn)
  {
  }

  /** A scan never overwrites an entry: what was registered stays. */
  lemma {:induction false} ScanKeepsEntries(probe: string -> Option<string>, kind: Kind, reg: map<string, string>, listing: seq<string>)
    ensures forall h :: h in reg ==> h in Scanned(probe, kind, reg, listing) && Scanned(probe, kind, reg, listing)[h] == reg[h]
  {
    if listing != [] {
      ScanKeepsEntries(probe, kind, reg, listing[..|listing| - 1]);
      StepKeeps(probe, kind, Scanned(probe, kind, reg, listing[..|listing| - 1]), listing[|listing| - 1]);
    }
  }

  lemma {:induction false} ScanCompleteAt(probe: string -> Option<string>, kind: Kind, reg: map<string, string>, listing: seq<string>, i: nat)
    requires i < |listing| && probe(listing[i]).Some?
    ensures probe(listing[i]).value in Scanned(probe, kind, reg, listing)
  {
    var n := |listing|;
    var init := listing[..n - 1];
    StepKeeps(probe, kind, Scanned(probe, kind, reg, init), listing[n - 1]);
    if i < n - 1 {
      assert init[i] == listing[i];
      ScanCompleteAt(probe, kind, reg, init, i);
    }
  }

  /** Every listed file the scan can hash has its hash registered afterwards. */
  lemma ScanIsComplete(probe: string -> Option<string>, kind: Kind, reg: map<string, string>, listing: seq<string>)
    ensures forall i :: 0 <= i < |listing| && probe(listing[i]).Some? ==>
              probe(listing[i]).value in Scanned(probe, kind, reg, listing)
  {
    forall i | 0 <= i < |listing| && probe(listing[i]).Some?
      ensures probe(listing[i]).value in Scanned(probe, kind, reg, listing)
    {
      ScanCompleteAt(probe, kind, reg, listing, i);
    }
  }

  /**
   * An entry a scan adds is the reference of the FIRST listed file with
   * that hash.
   */
  lemma {:induction false} ScanFirstWins(probe: string -> Option<string>, kind: Kind, reg: map<string, string>, listing: seq<string>, h: string)
    requires h in Scanned(probe, kind, reg, listing) && h !in reg
    ensures exists i :: 0 <= i < |listing| && probe(listing[i]) == Some(h)
              && Scanned(probe, kind, reg, listing)[h] == KindRef(kind, listing[i])
              && forall j :: 0 <= j < i ==> probe(listing[j]) != Some(h)
  {
    var n := |listing|;
    var init := listing[..n - 1];
    var prev := Scanned(probe, kind, reg, init);
    if h in prev {
      ScanFirstWins(probe, kind, reg, init, h);
      var i :| 0 <= i < |init| && probe(init[i]) == Some(h) && prev[h] == KindRef(kind, init[i])
               && forall j :: 0 <= j < i ==> probe(init[j]) != Some(h);
      assert listing[i] == init[i];
      assert forall j :: 0 <= j < i ==> listing[j] == init[j];
    } else {
      ScanIsComplete(probe, kind, reg, init);
      assert forall j :: 0 <= j < n - 1 ==> listing[j] == init[j];
      assert forall j :: 0 <= j < n - 1 ==> probe(listing[j]) != Some(h);
    }
  }

  /** The distinct hashes a probe finds over a listing. */
  function ProbedHashes(probe: string -> Option<string>, listing: seq<string>): (r: set<string>)
    ensures forall i :: 0 <= i < |listing| && probe(listing[i]).Some? ==> probe(listing[i]).value in r
    ensures forall h :: h in r ==> exists i :: 0 <= i < |listing| && probe(listing[i]) == Some(h)
  {
    if listing == [] then {}
    else
      var init := listing[..|listing| - 1];
      var prev := ProbedHashes(probe, init);
      assert forall i :: 0 <= i < |init| ==> init[i] == listing[i];
      match probe(listing[|listing| - 1])
      case None => prev
      case Some(h) => prev + {h}
  }

  /** The keys after a scan are the keys before it and every hash the probe finds. */
  lemma {:induction false} ScanKeys(probe: string -> Option<string>, kind: Kind, reg: map<string, string>, listing: seq<string>)
    ensures Scanned(probe, kind, reg, listing).Keys == reg.Keys + ProbedHashes(probe, listing)
  {
    if listing != [] {
      ScanKeys(probe, kind, reg, listing[..|listing| - 1]);
    }
  }

  /** The other registry section. */
  function Other(kind: Kind): Kind
  {
    if kind == ImageKind then VideoKind else ImageKind
  }

  /** Both digest functions give a hexadecimal SHA-256 digest: 64 characters, never empty. */
  ghost predicate HexDigests(codec: Codec)
  {
    (forall p :: |codec.pilHash(p)| == 64) && (forall b :: |codec.sha256(b)| == 64)
  }

  /** The inputs of `attach_media` apart from `existing_ref` and `media_type`. */
  datatype AttachArgs = AttachArgs(file: Option<Upload>, bytes: Option<Bytes>, filename: Option<string>, picture: Option<Picture>)

  /** `decode_upload_to_pil` takes the HEIC decoder for a name ending in ".heic", in any case. */
  predicate IsHeicName(name: string)
  {
    EndsWith(Lower(name), ".heic")
  }

  /** `uploaded_filename or default`. */
  function NameOr(name: Option<string>, default: string): string
  {
    if name.Some? && name.value != "" then name.value else default
  }

  /**
   * The picture `_attach_image` works with: the given picture converted to
   * RGB, else the decoded upload, else the decoded bytes; the first present
   * input is used.
   */
  function DecodeImage(codec: Codec, args: AttachArgs): Decoded
  {
    if args.picture.Some? then Decoded(codec.toRgb(args.picture.value))
    else if args.file.Some? then
      var name := args.file.value.name.GetOr("upload.jpg");
      match codec.decode(args.file.value.data, IsHeicName(name))
      case None => DecodeFailed
      case Some(p) => Decoded(p)
    else if args.bytes.Some? then
      match codec.decode(args.bytes.value, IsHeicName(NameOr(args.filename, "upload.jpg")))
      case None => DecodeFailed
      case Some(p) => Decoded(p)
    else NoInput
  }

  /** The bytes and file name `_attach_video` works with, `None` when it has no input. */
  datatype VideoInput = VideoInput(data: Bytes, filename: string)

  function VideoUpload(args: AttachArgs): Option<VideoInput>
  {
    if args.file.Some? then Some(VideoInput(args.file.value.data, args.file.value.name.GetOr("video.mp4")))
    else if args.bytes.Some? then Some(VideoInput(args.bytes.value, NameOr(args.filename, "video.mp4")))
    else None
  }

  /** The extension a new base video gets: the upload's, lowercased, or ".mp4" when it has none. */
  function VideoExtension(filename: string): (r: string)
    ensures r != "" && r[0] == '.'
  {
    var e := Extension(filename);
    if e != "" then Lower(e) else ".mp4"
  }

  /** The directory part `media_ref_from_path` puts before a file name. */
  function RefDir(refType: string): string
  {
    if refType == "base_image" then "base_images/"
    else if refType == "base_video" then "base_videos/"
    else if refType == "overlay" then "overlays/"
    else ""
  }

  /** A name under a directory is a reference of that directory's kind. */
  lemma DirRefIsOfKind(dir: string, fn: string, prefix: string)
    ensures IsRefOfKind(dir + "/" + fn, prefix, dir)
  {
    assert (dir + "/" + fn)[..|dir + "/"|] == dir + "/";
  }

  /** The reference of a path is classified by the type it was asked for. */
  lemma MediaRefFromPathKind(absPath: string, refType: string)
    requires absPath != ""
    ensures refType == "base_image" ==> IsBaseImageRef(MediaRefFromPath(absPath, refType))
    ensures refType == "base_video" ==> IsBaseVideoRef(MediaRefFromPath(absPath, refType))
    ensures refType == "overlay" ==> IsOverlayRef(MediaRefFromPath(absPath, refType))
    ensures StartsWith(MediaRefFromPath(absPath, refType), RefDir(refType))
    ensures MediaRefFromPath(absPath, refType)[|RefDir(refType)|..] == Basename(absPath)
    ensures '/' !in MediaRefFromPath(absPath, refType)[|RefDir(refType)|..]
  {
    var b := Basename(absPath);
    var r := MediaRefFromPath(absPath, refType);
    assert r == RefDir(refType) + b;
    assert r[..|RefDir(refType)|] == RefDir(refType) && r[|RefDir(refType)|..] == b by {
      assert r == RefDir(refType) + b;
    }
    if refType == "base_image" {
      assert r == "base_images" + "/" + b by {
        assert "base_images/" == "base_images" + "/";
      }
      DirRefIsOfKind("base_images", b, BaseImagePrefix);
    } else if refType == "base_video" {
      assert r == "base_videos" + "/" + b by {
        assert "base_videos/" == "base_videos" + "/";
      }
      DirRefIsOfKind("base_videos", b, BaseVideoPrefix);
    } else if refType == "overlay" {
      assert r == "overlays" + "/" + b by {
        assert "overlays/" == "overlays" + "/";
      }
      DirRefIsOfKind("overlays", b, OverlayPrefix);
    }
  }

  /** `media_ref_from_path`: the store reference of an absolute path, by reference type. */
  function MediaRefFromPath(absPath: string, refType: string): (r: string)
    ensures absPath == "" ==> r == ""
  {
    if absPath == "" then ""
    else
      RefDir(refType) + Basename(absPath)
  }

  /** The content hash `_attach_image` registers: the digest of the normalised upload, not of the file it writes. */
  function UploadHash(codec: Codec, args: AttachArgs): string
    requires DecodeImage(codec, args).Decoded?
  {
    codec.pilHash(DecodeImage(codec, args).picture)
  }

  /**
   * The reference `attach_media` gives back for an existing reference: a
   * base reference with its backslashes turned into '/', anything else the
   * kind's directory followed by the base name of the resolved path.
   */
  function CanonicalRef(ref: string, kind: Kind, absPath: string): string
  {
    if IsBaseImageRef(ref) || IsBaseVideoRef(ref) then Replace(ref, "\\", "/")
    else KindRef(kind, Basename(absPath))
  }

  /** The last '/'-separated segment of a reference. */
  function LastSegment(ref: string): (r: string)
    ensures '/' !in r
  {
    var parts := Split(ref, '/');
    parts[|parts| - 1]
  }

  /** The legacy media types that lived in the edited-image directory. */
  const EditedMediaTypes: seq<string> := ["EDITED", "AFTER_EDITED", "CTX_EDITED", "ADD_EDITED", "NADD_EDITED"]

  class Store {
    /** MEDIA_ROOT: an absolute path without a trailing '/'. */
    const root: string
    const codec: Codec
    /** Every file of the system, by absolute path. */
    var files: map<string, Bytes>
    /** Whether media_registry.json exists. */
    var regExists: bool
    /** The "images" and "videos" sections of the registry: content hash to reference. */
    var images: map<string, string>
    var videos: map<string, string>
    /**
     * The paths at which the file system refuses to create, replace or
     * remove a file (no space left, no permission): writing there raises,
     * and `os.remove` there raises too.
     */
    const failing: set<string>

    ghost predicate Valid()
      reads this
    {
      RootOk() && HexDigests(codec)
      && (!regExists ==> images == map[] && videos == map[])
    }

    /** MEDIA_ROOT is absolute and has no trailing '/'. */
    predicate RootOk()
    {
      IsAbs(root) && root[|root| - 1] != '/'
    }

    constructor (root: string, codec: Codec, files: map<string, Bytes>, failing: set<string>)
      requires IsAbs(root) && root[|root| - 1] != '/' && HexDigests(codec)
      ensures Valid() && this.root == root && this.codec == codec && this.files == files && this.failing == failing
      ensures !regExists && images == map[] && videos == map[]
    {
      this.root := root;
      this.codec := codec;
      this.files := files;
      this.failing := failing;
      regExists := false;
      images := map[];
      videos := map[];
    }

    function Section(kind: Kind): map<string, string>
      reads this
    {
      if kind == ImageKind then images else videos
    }

    // ---------------------------------------------------------- paths

    function KindPath(kind: Kind, fn: string): string
    {
      MediaPath(root, KindDir(kind), fn)
    }

    /** Where an image upload named with the random id `uid` is written. */
    function NewImagePath(uid: string): string
      requires IsHexId(uid)
    {
      KindPath(ImageKind, BaseImageFilename(uid, ".jpg"))
    }

    /** Where a video upload named with `uid`, of the given original file name, is written. */
    function NewVideoPath(uid: string, filename: string): string
      requires IsHexId(uid)
    {
      KindPath(VideoKind, BaseVideoFilename(uid, VideoExtension(filename)))
    }

    function BaseImagePath(fn: string): string { PathJoin(PathJoin(root, "base_images"), fn) }
    function BaseVideoPath(fn: string): string { PathJoin(PathJoin(root, "base_videos"), fn) }
    function OverlayPath(fn: string): string { PathJoin(PathJoin(root, "overlays"), fn) }

    /** The paths a typed reference is looked up at: the typed directory for a bare generated name, then the root. */
    function TypedCandidates(ref: string, isKind: bool, prefix: string, dir: string): seq<string>
    {
      if !isKind then []
      else (if StartsWith(ref, prefix) then [PathJoin(PathJoin(root, dir), ref)] else []) + [PathJoin(root, ref)]
    }

    /** The ordered candidate paths of a relative reference. */
    function Candidates(ref: string, projectRoot: Option<string>): seq<string>
    {
      TypedCandidates(ref, IsBaseImageRef(ref), BaseImagePrefix, "base_images")
      + TypedCandidates(ref, IsBaseVideoRef(ref), BaseVideoPrefix, "base_videos")
      + TypedCandidates(ref, IsOverlayRef(ref), OverlayPrefix, "overlays")
      + [PathJoin(root, ref)]
      + (if projectRoot.Some? then [PathJoin(projectRoot.value, ref)] else [])
    }

    /** The first candidate that exists. */
    function FirstExisting(cands: seq<string>): (r: Option<string>)
      reads this
      ensures r.Some? ==> r.value in files && r.value in cands
      ensures r.None? ==> forall i :: 0 <= i < |cands| ==> cands[i] !in files
      ensures r.Some? ==> exists k :: 0 <= k < |cands| && cands[k] == r.value
                                     && forall j :: 0 <= j < k ==> cands[j] !in files
    {
      if cands == [] then None
      else if cands[0] in files then Some(cands[0])
      else
        var r := FirstExisting(cands[1..]);
        if r.Some? then
          var k :| 0 <= k < |cands[1..]| && cands[1..][k] == r.value
                   && forall j :: 0 <= j < k ==> cands[1..][j] !in files;
          assert cands[k + 1] == r.value;
          r
        else r
    }

    /**
     * `resolve_media_path(ref, project_paths)`; `projectRoot` is the "root"
     * entry of `project_paths` when it has one.
     */
    function Resolve(ref: string, projectRoot: Option<string>): Option<string>
      reads this
    {
      if ref == "" then None
      else if IsAbs(ref) then (if ref in files then Some(ref) else None)
      else FirstExisting(Candidates(ref, projectRoot))
    }

    // ---------------------------------------------------------- registry

    /** The scan's view of the current files: listed name to registrable hash. */
    function Prober(kind: Kind, strict: bool): string -> Option<string>
      reads this
    {
      ProbeWith(codec, files, root, kind, strict)
    }

    /**
     * One pass of the body of the scan loops (`_scan_base_*_and_register`
     * when `strict`, `rebuild_media_registry` otherwise); `added` tells
     * whether an entry was registered.
     */
    static method ScanEntry(codec: Codec, files: map<string, Bytes>, root: string, kind: Kind, strict: bool,
                            reg: map<string, string>, fn: string)
      returns (out: map<string, string>, added: bool)
      ensures out == ScanStep(ProbeWith(codec, files, root, kind, strict), kind, reg, fn)
      ensures added ==> |out| == |reg| + 1
      ensures !added ==> out == reg
    {
      ghost var p := Probe(codec, files, root, kind, strict, fn);
      assert ProbeWith(codec, files, root, kind, strict)(fn) == p;
      out, added := reg, false;
      var ext := Extension(Lower(fn));
      if ext in KindExtensions(kind) {
        var path := MediaPath(root, KindDir(kind), fn);
        if path in files {
          var h := ContentHash(codec, kind, files[path]);
          assert p == (if h.Some? && (h.value != "" || !strict) then h else None);
          if h.Some? && (h.value != "" || !strict) && h.value !in out {
            out, added := out[h.value := KindRef(kind, fn)], true;
          }
        } else {
          assert p == None;
        }
      } else {
        assert p == None;
      }
    }

    /** The loop of `_scan_base_images_and_register` / `_scan_base_videos_and_register`, over the directory listing in the order given. */
    method Scan(kind: Kind, reg: map<string, string>, listing: seq<string>) returns (out: map<string, string>)
      ensures out == Scanned(Prober(kind, true), kind, reg, listing)
    {
      var c, f, r := codec, files, root;
      ghost var probe := ProbeWith(c, f, r, kind, true);
      out := reg;
      var i := 0;
      while i < |listing|
        invariant 0 <= i <= |listing|
        invariant out == Scanned(probe, kind, reg, listing[..i])
      {
        var added;
        out, added := ScanEntry(c, f, r, kind, true, out, listing[i]);
        ScannedSnoc(probe, kind, reg, listing, i);
        i := i + 1;
      }
      assert listing[..|listing|] == listing;
    }

    // ---------------------------------------------------------- resolution facts

    /**
     * What `resolve_media_path` promises: nothing for an empty reference, an
     * absolute reference exactly when it exists, and only existing files.
     */
    lemma ResolveFacts(ref: string, projectRoot: Option<string>)
      ensures ref == "" ==> Resolve(ref, projectRoot) == None
      ensures ref != "" && IsAbs(ref) ==> Resolve(ref, projectRoot) == (if ref in files then Some(ref) else None)
      ensures Resolve(ref, projectRoot).Some? ==> Resolve(ref, projectRoot).value in files
      ensures ref != "" && !IsAbs(ref) && Resolve(ref, projectRoot).None? ==>
                forall i :: 0 <= i < |Candidates(ref, projectRoot)| ==> Candidates(ref, projectRoot)[i] !in files
      ensures ref != "" && !IsAbs(ref) && Resolve(ref, projectRoot).Some? ==>
                exists k :: 0 <= k < |Candidates(ref, projectRoot)|
                            && Candidates(ref, projectRoot)[k] == Resolve(ref, projectRoot).value
                            && forall j :: 0 <= j < k ==> Candidates(ref, projectRoot)[j] !in files
    {
    }

    /**
     * The order of the candidates: a reference starting with a generated
     * prefix is looked up in its typed directory first; the join with the
     * media root comes after the typed candidates, and the project-root
     * join, when there is a project root, comes last.
     */
    lemma CandidateOrder(ref: string, projectRoot: Option<string>)
      ensures var c := Candidates(ref, projectRoot);
              (StartsWith(ref, BaseImagePrefix) ==> c[0] == BaseImagePath(ref))
              && (StartsWith(ref, BaseVideoPrefix) && !IsBaseImageRef(ref) ==> c[0] == BaseVideoPath(ref))
              && (StartsWith(ref, OverlayPrefix) && !IsBaseImageRef(ref) && !IsBaseVideoRef(ref) ==> c[0] == OverlayPath(ref))
              && (projectRoot.Some? ==> |c| >= 2 && c[|c| - 1] == PathJoin(projectRoot.value, ref)
                                        && c[|c| - 2] == PathJoin(root, ref))
              && (projectRoot.None? ==> c[|c| - 1] == PathJoin(root, ref))
    {
      if StartsWith(ref, BaseImagePrefix) {
        ImageCandidateFirst(ref, projectRoot);
      }
      if StartsWith(ref, BaseVideoPrefix) && !IsBaseImageRef(ref) {
        VideoCandidateFirst(ref, projectRoot);
      }
      if StartsWith(ref, OverlayPrefix) && !IsBaseImageRef(ref) && !IsBaseVideoRef(ref) {
        OverlayCandidateFirst(ref, projectRoot);
      }
      RootCandidatesLast(ref, projectRoot);
    }

    lemma ImageCandidateFirst(ref: string, projectRoot: Option<string>)
      requires StartsWith(ref, BaseImagePrefix)
      ensures Candidates(ref, projectRoot)[0] == BaseImagePath(ref)
    {
      PrefixedIsKind(ref, BaseImagePrefix, "base_images");
    }

    lemma VideoCandidateFirst(ref: string, projectRoot: Option<string>)
      requires StartsWith(ref, BaseVideoPrefix) && !IsBaseImageRef(ref)
      ensures Candidates(ref, projectRoot)[0] == BaseVideoPath(ref)
    {
      PrefixedIsKind(ref, BaseVideoPrefix, "base_videos");
      var b := TypedCandidates(ref, true, BaseVideoPrefix, "base_videos");
      assert Candidates(ref, projectRoot)[..|b|] == b;
    }

    lemma OverlayCandidateFirst(ref: string, projectRoot: Option<string>)
      requires StartsWith(ref, OverlayPrefix) && !IsBaseImageRef(ref) && !IsBaseVideoRef(ref)
      ensures Candidates(ref, projectRoot)[0] == OverlayPath(ref)
    {
      PrefixedIsKind(ref, OverlayPrefix, "overlays");
      var o := TypedCandidates(ref, true, OverlayPrefix, "overlays");
      assert Candidates(ref, projectRoot)[..|o|] == o;
    }

    lemma RootCandidatesLast(ref: string, projectRoot: Option<string>)
      ensures var c := Candidates(ref, projectRoot);
              (projectRoot.Some? ==> |c| >= 2 && c[|c| - 1] == PathJoin(projectRoot.value, ref)
                                     && c[|c| - 2] == PathJoin(root, ref))
              && (projectRoot.None? ==> |c| >= 1 && c[|c| - 1] == PathJoin(root, ref))
    {
    }

    /** A reference starting with a kind's file prefix is a reference of that kind. */
    static lemma PrefixedIsKind(ref: string, prefix: string, dir: string)
      requires |prefix| > 0 && StartsWith(ref, prefix)
      ensures IsRefOfKind(ref, prefix, dir)
    {
      assert |ref| >= |prefix|;
    }

    /** Under the media root, joining a directory and then a name is joining "dir/name". */
    lemma JoinDirName(dir: string, fn: string)
      requires RootOk() && dir != "" && !IsAbs(dir) && dir[|dir| - 1] != '/' && !IsAbs(fn)
      ensures MediaPath(root, dir, fn) == PathJoin(root, dir + "/" + fn)
    {
      assert PathJoin(root, dir) == root + "/" + dir;
      assert !IsAbs(dir + "/" + fn) by {
        assert (dir + "/" + fn)[0] == dir[0];
      }
      assert (root + "/" + dir)[|root + "/" + dir| - 1] == dir[|dir| - 1];
    }

    /**
     * A relative reference that starts with none of the generated-name
     * prefixes resolves, without a project root, exactly to its join with
     * the media root, when that file exists.
     */
    lemma ResolveUnprefixed(ref: string)
      requires ref != "" && !IsAbs(ref)
      requires !StartsWith(ref, BaseImagePrefix) && !StartsWith(ref, BaseVideoPrefix) && !StartsWith(ref, OverlayPrefix)
      ensures Resolve(ref, None) == (if PathJoin(root, ref) in files then Some(PathJoin(root, ref)) else None)
    {
      var c := Candidates(ref, None);
      assert forall i :: 0 <= i < |c| ==> c[i] == PathJoin(root, ref);
      assert c[|c| - 1] == PathJoin(root, ref);
    }

    /** The reference of a file in a kind's directory resolves to that file, when it exists. */
    lemma ResolveKindRef(kind: Kind, fn: string)
      requires RootOk() && !IsAbs(fn)
      ensures Resolve(KindRef(kind, fn), None) == (if KindPath(kind, fn) in files then Some(KindPath(kind, fn)) else None)
    {
      var ref := KindRef(kind, fn);
      assert ref != "" && !IsAbs(ref) && !StartsWith(ref, BaseImagePrefix)
             && !StartsWith(ref, BaseVideoPrefix) && !StartsWith(ref, OverlayPrefix) by {
        KindDirShape(kind);
        assert ref[0] == 'b';
        LowerStartUnprefixed(ref);
      }
      assert KindPath(kind, fn) == PathJoin(root, ref) by {
        KindDirShape(kind);
        JoinDirName(KindDir(kind), fn);
      }
      ResolveUnprefixed(ref);
    }

    /** The reference "overlays/<name>" stored in a record resolves to the overlay file, when it exists. */
    lemma ResolveOverlayRef(fn: string)
      requires RootOk() && StartsWith(fn, OverlayPrefix)
      ensures Resolve("overlays/" + fn, None) == (if OverlayPath(fn) in files then Some(OverlayPath(fn)) else None)
    {
      assert fn[0] == OverlayPrefix[0] == 'C';
      ResolveOverlayName(fn);
    }

    /** The same for any name that starts like a generated overlay name. */
    lemma ResolveOverlayName(fn: string)
      requires RootOk() && fn != [] && fn[0] == 'C'
      ensures Resolve("overlays/" + fn, None) == (if OverlayPath(fn) in files then Some(OverlayPath(fn)) else None)
    {
      var ref := "overlays/" + fn;
      assert ref == "overlays" + "/" + fn by {
        assert "overlays/" == "overlays" + "/";
      }
      assert ref != "" && !IsAbs(ref) && !StartsWith(ref, BaseImagePrefix)
             && !StartsWith(ref, BaseVideoPrefix) && !StartsWith(ref, OverlayPrefix) by {
        assert ref[0] == 'o';
        LowerStartUnprefixed(ref);
      }
      assert OverlayPath(fn) == PathJoin(root, ref) by {
        OverlaysDirShape();
        assert !IsAbs(fn);
        JoinDirName("overlays", fn);
      }
      ResolveUnprefixed(ref);
    }

    // ---------------------------------------------------------- registry updates

    /** `_save_media_registry` of a registry whose `kind` section is `m` and whose other section is kept. */
    method SaveSection(kind: Kind, m: map<string, string>)
      requires Valid()
      modifies this
      ensures Valid() && regExists && files == old(files)
      ensures Section(kind) == m && Section(Other(kind)) == old(Section(Other(kind)))
    {
      if kind == ImageKind { images := m; } else { videos := m; }
      regExists := true;
    }

    /** `_register_media`: the entry for `h` becomes `ref`, overwriting any earlier one. */
    method Register(kind: Kind, h: string, ref: string)
      requires Valid()
      modifies this
      ensures Valid() && regExists && files == old(files)
      ensures Section(kind) == old(Section(kind))[h := ref] && Section(Other(kind)) == old(Section(Other(kind)))
    {
      SaveSection(kind, Section(kind)[h := ref]);
    }

    /**
     * `_ensure_registry_is_populated`: the section is (re)built by a scan
     * and saved only when the registry file is missing or the section is
     * empty; otherwise nothing changes.
     */
    method EnsurePopulated(kind: Kind, listing: seq<string>)
      requires Valid()
      modifies this
      ensures Valid() && files == old(files) && Section(Other(kind)) == old(Section(Other(kind)))
      ensures if !old(regExists) || old(Section(kind)) == map[] then
                regExists && Section(kind) == Scanned(Prober(kind, true), kind, old(Section(kind)), listing)
              else unchanged(this)
    {
      if !regExists || Section(kind) == map[] {
        var reg := Scan(kind, Section(kind), listing);
        SaveSection(kind, reg);
      }
    }

    /**
     * `_find_existing_by_hash_or_scan`: a registered reference that resolves
     * is returned as it is; otherwise the section is rescanned and saved, and
     * whatever it then holds for the hash is returned, possibly stale.
     */
    method FindExisting(h: string, kind: Kind, listing: seq<string>) returns (r: Option<string>)
      requires Valid()
      modifies this
      ensures Valid() && files == old(files) && Section(Other(kind)) == old(Section(Other(kind)))
      ensures h == "" ==> r == None && unchanged(this)
      ensures h != "" ==> regExists && r == (if h in Section(kind) then Some(Section(kind)[h]) else None)
      ensures forall k :: k in old(Section(kind)) ==> k in Section(kind) && Section(kind)[k] == old(Section(kind))[k]
      ensures forall k :: k in Section(kind) && k !in old(Section(kind)) ==> k in ProbedHashes(Prober(kind, true), listing)
      ensures (h != "" && old(regExists) && old(Section(kind)) != map[] && h in old(Section(kind))
               && old(Resolve(Section(kind)[h], None)).Some?) ==> r == Some(old(Section(kind))[h]) && unchanged(this)
    {
      if h == "" {
        return None;
      }
      ghost var before := Section(kind);
      EnsurePopulated(kind, listing);
      ScanKeepsEntries(Prober(kind, true), kind, before, listing);
      ScanKeys(Prober(kind, true), kind, before, listing);
      var sec := Section(kind);
      if h in sec && sec[h] != "" {
        var abs := Resolve(sec[h], None);
        if abs.Some? && abs.value in files {
          return Some(sec[h]);
        }
      }
      var reg := Scan(kind, sec, listing);
      ScanKeepsEntries(Prober(kind, true), kind, sec, listing);
      ScanKeys(Prober(kind, true), kind, sec, listing);
      SaveSection(kind, reg);
      r := if h in reg then Some(reg[h]) else None;
    }

    // ---------------------------------------------------------- attach pipeline

    /**
     * The tail of `_attach_image` / `_attach_video`: write the new file, then
     * register its reference. A write that fails raises before the registry
     * is touched, so the registry never names a file that was not written.
     */
    method StoreNew(kind: Kind, h: string, name: string, data: Bytes) returns (o: Outcome)
      requires Valid() && !IsAbs(name)
      modifies this
      ensures Valid() && o != NotAttached
      ensures o == Raised <==> KindPath(kind, name) in failing
      ensures o == Raised ==> unchanged(this)
      ensures o.Attached? ==>
                regExists && o.ref == KindRef(kind, name) && files == old(files)[KindPath(kind, name) := data]
                && Section(kind) == old(Section(kind))[h := o.ref] && Section(Other(kind)) == old(Section(Other(kind)))
                && Resolve(o.ref, None) == Some(KindPath(kind, name))
    {
      var ok := WriteFile(KindPath(kind, name), data);
      if !ok {
        return Raised;
      }
      var ref := KindRef(kind, name);
      Register(kind, h, ref);
      ResolveKindRef(kind, name);
      o := Attached(ref);
    }

    /**
     * The part `_attach_image` and `_attach_video` share once the content
     * hash `h` is known: reuse the registered reference when it resolves,
     * otherwise write `data` under `name` and register it.
     */
    method AttachHashed(kind: Kind, h: string, name: string, data: Bytes, listing: seq<string>)
      returns (o: Outcome, ghost wrote: bool)
      requires Valid() && h != "" && !IsAbs(name)
      modifies this
      ensures Valid() && o != NotAttached && Section(Other(kind)) == old(Section(Other(kind))) && regExists
      ensures o.Attached? ==> h in Section(kind) && Section(kind)[h] == o.ref && Resolve(o.ref, None).Some?
      ensures o == Raised ==> KindPath(kind, name) in failing && !wrote
      ensures KindPath(kind, name) !in failing ==> o.Attached?
      ensures !wrote ==> files == old(files)
      ensures wrote ==> o == Attached(KindRef(kind, name)) && files == old(files)[KindPath(kind, name) := data]
      ensures forall k :: k in old(Section(kind)) && k != h ==> k in Section(kind) && Section(kind)[k] == old(Section(kind))[k]
      ensures old(Section(kind)).Keys <= Section(kind).Keys
      ensures (old(regExists) && old(Section(kind)) != map[] && h in old(Section(kind))
               && old(Resolve(Section(kind)[h], None)).Some?)
              ==> o == Attached(old(Section(kind))[h]) && unchanged(this)
    {
      var existing := FindExisting(h, kind, listing);
      if existing.Some? && existing.value != "" {
        var abs := Resolve(existing.value, None);
        if abs.Some? && abs.value in files {
          return Attached(existing.value), false;
        }
      }
      o := StoreNew(kind, h, name, data);
      wrote := o.Attached?;
    }

    /**
     * `_attach_image`: decode, hash the normalised picture, reuse a
     * registered reference that resolves, otherwise write the re-encoded
     * JPEG under a fresh name and register it. `wrote` tells whether a new
     * file was written. A failed decode raises, and so does a write the
     * file system refuses, after the registry rescan and with no file written.
     */
    method AttachImage(args: AttachArgs, uid: string, listing: seq<string>) returns (o: Outcome, ghost wrote: bool)
      requires Valid() && IsHexId(uid)
      modifies this
      ensures Valid() && videos == old(videos)
      ensures o == NotAttached <==> DecodeImage(codec, args) == NoInput
      ensures DecodeImage(codec, args) == DecodeFailed ==> o == Raised
      ensures o == Raised && DecodeImage(codec, args) != DecodeFailed ==>
                DecodeImage(codec, args).Decoded? && NewImagePath(uid) in failing
      ensures DecodeImage(codec, args).Decoded? && NewImagePath(uid) !in failing ==>
                o.Attached?
      ensures !DecodeImage(codec, args).Decoded? ==> unchanged(this) && !wrote
      ensures !o.Attached? ==> !wrote
      ensures o.Attached? ==> regExists && UploadHash(codec, args) in images
                              && images[UploadHash(codec, args)] == o.ref && Resolve(o.ref, None).Some?
      ensures !wrote ==> files == old(files)
      ensures wrote ==> o == Attached(KindRef(ImageKind, BaseImageFilename(uid, ".jpg")))
                        && files == old(files)[KindPath(ImageKind, BaseImageFilename(uid, ".jpg")) :=
                                               codec.storeJpeg(DecodeImage(codec, args).picture)]
      ensures DecodeImage(codec, args).Decoded? ==> forall k :: k in old(images) && k != UploadHash(codec, args) ==>
                                k in images && images[k] == old(images)[k]
      ensures old(images).Keys <= images.Keys
      ensures (DecodeImage(codec, args).Decoded? && old(regExists) && old(images) != map[]
               && UploadHash(codec, args) in old(images)
               && old(Resolve(images[UploadHash(codec, args)], None)).Some?)
              ==> o == Attached(old(images)[UploadHash(codec, args)]) && unchanged(this)
    {
      var d := DecodeImage(codec, args);
      if d == NoInput {
        return NotAttached, false;
      }
      if d == DecodeFailed {
        return Raised, false;
      }
      var img := d.picture;
      var h := codec.pilHash(img);
      assert |h| == 64;
      var name := BaseImageFilename(uid, ".jpg");
      assert name[0] == 'M';
      NotAbs(name);
      o, wrote := AttachHashed(ImageKind, h, name, codec.storeJpeg(img), listing);
    }

    /**
     * `_attach_video`: hash the raw bytes, reuse a registered reference that
     * resolves, otherwise write the bytes under a fresh name with the
     * upload's extension and register them. The stored file has the hash
     * that is registered.
     */
    method AttachVideo(args: AttachArgs, uid: string, listing: seq<string>) returns (o: Outcome, ghost wrote: bool)
      requires Valid() && IsHexId(uid)
      modifies this
      ensures Valid() && images == old(images)
      ensures o == NotAttached <==> VideoUpload(args).None?
      ensures o == Raised ==> NewVideoPath(uid, VideoUpload(args).value.filename) in failing
      ensures VideoUpload(args).Some? && NewVideoPath(uid, VideoUpload(args).value.filename) !in failing ==> o.Attached?
      ensures o == NotAttached ==> unchanged(this)
      ensures !o.Attached? ==> !wrote
      ensures o.Attached? ==> regExists && codec.sha256(VideoUpload(args).value.data) in videos
                              && videos[codec.sha256(VideoUpload(args).value.data)] == o.ref
                              && Resolve(o.ref, None).Some?
      ensures !wrote ==> files == old(files)
      ensures wrote ==> var v := VideoUpload(args).value;
                        var name := BaseVideoFilename(uid, VideoExtension(v.filename));
                        o == Attached(KindRef(VideoKind, name))
                        && files == old(files)[KindPath(VideoKind, name) := v.data]
                        && ContentHash(codec, VideoKind, files[KindPath(VideoKind, name)]) == Some(codec.sha256(v.data))
      ensures VideoUpload(args).Some? ==> forall k :: k in old(videos) && k != codec.sha256(VideoUpload(args).value.data) ==>
                                k in videos && videos[k] == old(videos)[k]
      ensures (VideoUpload(args).Some? && old(regExists) && old(videos) != map[]
               && codec.sha256(VideoUpload(args).value.data) in old(videos)
               && old(Resolve(videos[codec.sha256(VideoUpload(args).value.data)], None)).Some?)
              ==> o == Attached(old(videos)[codec.sha256(VideoUpload(args).value.data)]) && unchanged(this)
    {
      var v := VideoUpload(args);
      if v.None? {
        return NotAttached, false;
      }
      var data := v.value.data;
      var h := codec.sha256(data);
      assert |h| == 64;
      var name := BaseVideoFilename(uid, VideoExtension(v.value.filename));
      assert name[0] == 'M';
      NotAbs(name);
      o, wrote := AttachHashed(VideoKind, h, name, data, listing);
    }

    /** The registry update `attach_media` makes for an existing reference: its content hash, when the file can be hashed. */
    function SelfHealHash(kind: Kind, data: Bytes): Option<string>
      reads this
    {
      match ContentHash(codec, kind, data)
      case None => None
      case Some(h) => if h != "" then Some(h) else None
    }

    /**
     * `attach_media`. With a non-empty `existingRef` nothing is copied: the
     * reference must resolve (`None` otherwise), its canonical form is
     * registered under the file's content hash when that can be computed,
     * and returned. Without one, the upload goes through `_attach_video` for
     * videos and `_attach_image` for everything else.
     */
    method AttachMedia(existingRef: Option<string>, kind: Kind, args: AttachArgs, uid: string, listing: seq<string>)
      returns (o: Outcome)
      requires Valid() && IsHexId(uid)
      modifies this
      ensures Valid()
      ensures existingRef.Some? && existingRef.value != "" ==>
                files == old(files) && o != Raised
                && (o == NotAttached <==> old(Resolve(existingRef.value, None)).None?)
                && (o == NotAttached ==> unchanged(this))
                && (o.Attached? ==>
                      var abs := old(Resolve(existingRef.value, None)).value;
                      o.ref == CanonicalRef(existingRef.value, kind, abs)
                      && Section(Other(kind)) == old(Section(Other(kind)))
                      && Section(kind) == (match SelfHealHash(kind, files[abs])
                                           case None => old(Section(kind))
                                           case Some(h) => old(Section(kind))[h := o.ref]))
      ensures (existingRef.None? || existingRef.value == "") && kind == VideoKind ==>
                (o == NotAttached <==> VideoUpload(args).None?)
                && (o == Raised ==> files == old(files)
                                    && NewVideoPath(uid, VideoUpload(args).value.filename) in failing)
                && (VideoUpload(args).Some? && NewVideoPath(uid, VideoUpload(args).value.filename) !in failing ==> o.Attached?)
                && (o.Attached? ==> Resolve(o.ref, None).Some? && codec.sha256(VideoUpload(args).value.data) in videos
                                    && videos[codec.sha256(VideoUpload(args).value.data)] == o.ref)
      ensures (existingRef.None? || existingRef.value == "") && kind == ImageKind ==>
                (o == NotAttached <==> DecodeImage(codec, args) == NoInput)
                && (DecodeImage(codec, args) == DecodeFailed ==> o == Raised)
                && (o == Raised && DecodeImage(codec, args) != DecodeFailed ==>
                      DecodeImage(codec, args).Decoded? && NewImagePath(uid) in failing)
                && (DecodeImage(codec, args).Decoded? && NewImagePath(uid) !in failing
                    ==> o.Attached?)
                && (!DecodeImage(codec, args).Decoded? ==> unchanged(this))
                && (o.Attached? ==> regExists && Resolve(o.ref, None).Some? && UploadHash(codec, args) in images
                                    && images[UploadHash(codec, args)] == o.ref)
                && (DecodeImage(codec, args).Decoded? ==>
                      forall k :: k in old(images) && k != UploadHash(codec, args) ==> k in images && images[k] == old(images)[k])
                && ((DecodeImage(codec, args).Decoded? && old(regExists) && old(images) != map[]
                     && UploadHash(codec, args) in old(images)
                     && old(Resolve(images[UploadHash(codec, args)], None)).Some?)
                    ==> o == Attached(old(images)[UploadHash(codec, args)]) && unchanged(this))
                && old(images).Keys <= images.Keys
                && (files == old(files)
                    || (o.Attached? && files == old(files)[KindPath(ImageKind, BaseImageFilename(uid, ".jpg")) :=
                                                           codec.storeJpeg(DecodeImage(codec, args).picture)]))
    {
      if existingRef.Some? && existingRef.value != "" {
        var ref := existingRef.value;
        var abs := Resolve(ref, None);
        if abs.None? || abs.value !in files {
          return NotAttached;
        }
        var canonical := CanonicalRef(ref, kind, abs.value);
        var data := files[abs.value];
        if kind == VideoKind {
          var h := codec.sha256(data);
          if h != "" {
            Register(VideoKind, h, canonical);
          }
        } else {
          var im := codec.open(data);
          if im.Some? {
            var h := codec.pilHash(im.value);
            if h != "" {
              Register(ImageKind, h, canonical);
            }
          }
        }
        return Attached(canonical);
      }
      ghost var wrote;
      if kind == VideoKind {
        o, wrote := AttachVideo(args, uid, listing);
      } else {
        o, wrote := AttachImage(args, uid, listing);
      }
    }

    /**
     * Attaching the same image twice, with nothing else changing the store
     * in between, gives the same reference and writes at most one file: the
     * second call finds the first call's registry entry. Only a first write
     * the file system refuses lets the second call write.
     */
    method AttachImageTwice(args: AttachArgs, uid1: string, uid2: string, listing: seq<string>)
      returns (o1: Outcome, o2: Outcome, ghost between: map<string, Bytes>)
      requires Valid() && IsHexId(uid1) && IsHexId(uid2)
      modifies this
      ensures Valid()
      ensures (o1.Attached? || !DecodeImage(codec, args).Decoded?) ==> o2 == o1 && files == between
      ensures DecodeImage(codec, args).Decoded? && NewImagePath(uid1) !in failing
              ==> o1.Attached?
      ensures DecodeImage(codec, args).Decoded? ==>
                between == old(files)
                || between == old(files)[KindPath(ImageKind, BaseImageFilename(uid1, ".jpg")) :=
                                         codec.storeJpeg(DecodeImage(codec, args).picture)]
      ensures !DecodeImage(codec, args).Decoded? ==> between == old(files)
    {
      ghost var w1, w2;
      o1, w1 := AttachImage(args, uid1, listing);
      between := files;
      o2, w2 := AttachImage(args, uid2, listing);
    }

    /** The same for videos: one stored copy, one reference. */
    method AttachVideoTwice(args: AttachArgs, uid1: string, uid2: string, listing: seq<string>)
      returns (o1: Outcome, o2: Outcome, ghost between: map<string, Bytes>)
      requires Valid() && IsHexId(uid1) && IsHexId(uid2)
      modifies this
      ensures Valid()
      ensures (o1.Attached? || VideoUpload(args).None?) ==> o2 == o1 && files == between
      ensures VideoUpload(args).Some? && NewVideoPath(uid1, VideoUpload(args).value.filename) !in failing ==> o1.Attached?
      ensures VideoUpload(args).Some? ==>
                var v := VideoUpload(args).value;
                between == old(files)
                || between == old(files)[KindPath(VideoKind, BaseVideoFilename(uid1, VideoExtension(v.filename))) := v.data]
      ensures VideoUpload(args).None? ==> between == old(files)
    {
      ghost var w1, w2;
      o1, w1 := AttachVideo(args, uid1, listing);
      between := files;
      o2, w2 := AttachVideo(args, uid2, listing);
    }

    // ---------------------------------------------------------- saving and deleting

    /**
     * `save_base_image`: attach the picture and return the file name and the
     * resolved path of the reference obtained. Attaching a picture yields a
     * reference that resolves unless its write raises, and that exception
     * propagates; so the fallback that writes a file without registering it
     * is never reached.
     */
    method SaveBaseImage(picture: Picture, extension: string, uid: string, listing: seq<string>)
      returns (raised: bool, filename: string, absPath: string, ghost ref: string)
      requires Valid() && IsHexId(uid)
      modifies this
      ensures Valid() && videos == old(videos)
      ensures raised ==> files == old(files) && NewImagePath(uid) in failing
      ensures NewImagePath(uid) !in failing ==> !raised
      ensures !raised ==>
                var h := codec.pilHash(codec.toRgb(picture));
                regExists && h in images && images[h] == ref
                && Resolve(ref, None) == Some(absPath) && absPath in files
                && filename == Basename(LastSegment(ref)) && '/' !in filename
    {
      ghost var wrote;
      var o;
      o, wrote := AttachImage(AttachArgs(None, None, None, Some(picture)), uid, listing);
      if o == Raised {
        return true, "", "", "";
      }
      raised := false;
      if o.Attached? && o.ref != "" {
        ref := o.ref;
        filename := Basename(LastSegment(o.ref));
        var abs := Resolve(o.ref, None);
        if abs.Some? {
          absPath := abs.value;
          return;
        }
      }
      assert false;
    }

    /** `save_base_video`, likewise: a refused write raises, and the fallback write is never reached. */
    method SaveBaseVideo(data: Bytes, originalFilename: string, uid: string, listing: seq<string>)
      returns (raised: bool, filename: string, absPath: string, ghost ref: string)
      requires Valid() && IsHexId(uid)
      modifies this
      ensures Valid() && images == old(images)
      ensures raised ==> files == old(files)
                         && NewVideoPath(uid, NameOr(Some(originalFilename), "video.mp4")) in failing
      ensures NewVideoPath(uid, NameOr(Some(originalFilename), "video.mp4")) !in failing ==> !raised
      ensures !raised ==>
                regExists && codec.sha256(data) in videos && videos[codec.sha256(data)] == ref
                && Resolve(ref, None) == Some(absPath) && absPath in files
                && filename == Basename(LastSegment(ref)) && '/' !in filename
    {
      ghost var wrote;
      var o;
      o, wrote := AttachVideo(AttachArgs(None, Some(data), Some(originalFilename), None), uid, listing);
      if o == Raised {
        return true, "", "", "";
      }
      raised := false;
      if o.Attached? && o.ref != "" {
        ref := o.ref;
        filename := Basename(LastSegment(o.ref));
        var abs := Resolve(o.ref, None);
        if abs.Some? {
          absPath := abs.value;
          return;
        }
      }
      assert false;
    }

    /**
     * `save_canvas_overlay`: the overlay is written as an RGBA PNG at its
     * deterministic name in the overlay directory, replacing any file there;
     * the registry is not touched. The bare file name resolves to the file
     * just written. `raised` where the file system refuses the write, which
     * leaves the files as they were.
     */
    method SaveCanvasOverlay(overlay: Picture, projectId: string, auditId: string, nr: string, overlayType: string,
                             index: Option<int>)
      returns (raised: bool, filename: string, absPath: string)
      requires Valid()
      modifies this
      ensures Valid() && regExists == old(regExists) && images == old(images) && videos == old(videos)
      ensures filename == OverlayFilename(projectId, auditId, nr, overlayType, index) && IsOverlayRef(filename)
      ensures absPath == OverlayPath(filename)
      ensures raised <==> absPath in failing
      ensures raised ==> files == old(files)
      ensures !raised ==> files == old(files)[absPath := codec.storePng(overlay)] && Resolve(filename, None) == Some(absPath)
    {
      filename := OverlayFilename(projectId, auditId, nr, overlayType, index);
      absPath := OverlayPath(filename);
      var ok := WriteFile(absPath, codec.storePng(overlay));
      OverlayFilenameIsOverlayRef(projectId, auditId, nr, overlayType, index);
      raised := !ok;
      if ok {
        OverlayFilenameNoSeparator(projectId, auditId, nr, overlayType, index);
        OverlayResolves(filename);
      }
    }

    /**
     * Writing a file, creating or replacing it; the registry is not touched.
     * Not `ok` (the write raises) where the file system refuses, and then
     * nothing is written.
     */
    method WriteFile(path: string, data: Bytes) returns (ok: bool)
      requires Valid()
      modifies this
      ensures Valid() && regExists == old(regExists) && images == old(images) && videos == old(videos)
      ensures ok <==> path !in failing
      ensures ok ==> files == old(files)[path := data]
      ensures !ok ==> unchanged(this)
    {
      if path in failing {
        return false;
      }
      files := files[path := data];
      ok := true;
    }

    /** A separator-free overlay name resolves to the overlay directory first. */
    lemma OverlayResolves(filename: string)
      requires StartsWith(filename, "CANVAS__PRJ_") && NoSeparator(filename) && OverlayPath(filename) in files
      ensures Resolve(filename, None) == Some(OverlayPath(filename))
    {
      assert filename[0] == 'C';
      NotAbs(filename);
      NoSeparatorKind(filename, BaseImagePrefix, "base_images");
      NoSeparatorKind(filename, BaseVideoPrefix, "base_videos");
      NoSeparatorKind(filename, OverlayPrefix, "overlays");
      assert !StartsWith(filename, BaseImagePrefix) by { assert filename[..|BaseImagePrefix|][0] == 'C'; }
      assert !StartsWith(filename, BaseVideoPrefix) by { assert filename[..|BaseVideoPrefix|][0] == 'C'; }
      assert StartsWith(filename, OverlayPrefix) by { assert filename[..8] == filename[..12][..8]; }
      assert Candidates(filename, None)[0] == OverlayPath(filename);
    }

    /**
     * `delete_global_media`: the resolved file is removed; `false` when the
     * reference is empty or does not resolve, or when `os.remove` raises
     * (the file system refuses), which is caught and leaves the file.
     */
    method DeleteGlobalMedia(ref: string) returns (ok: bool)
      requires Valid()
      modifies this
      ensures Valid() && regExists == old(regExists) && images == old(images) && videos == old(videos)
      ensures ok <==> old(Resolve(ref, None)).Some? && old(Resolve(ref, None)).value !in failing
      ensures ok ==> files == old(files) - {old(Resolve(ref, None)).value}
      ensures !ok ==> files == old(files)
    {
      if ref == "" {
        return false;
      }
      var abs := Resolve(ref, None);
      if abs.Some? && abs.value in files {
        if abs.value in failing {
          return false;
        }
        files := files - {abs.value};
        return true;
      }
      return false;
    }

    /**
     * One counting loop of `rebuild_media_registry`: a fresh section built
     * from the listing, with one count per entry added. Unlike the
     * self-healing scans it also registers an empty digest.
     */
    method RebuildSection(kind: Kind, listing: seq<string>) returns (reg: map<string, string>, count: nat)
      ensures reg == Scanned(Prober(kind, false), kind, map[], listing)
      ensures count == |reg|
    {
      var c, f, r := codec, files, root;
      ghost var probe := ProbeWith(c, f, r, kind, false);
      reg, count := map[], 0;
      var i := 0;
      while i < |listing|
        invariant 0 <= i <= |listing|
        invariant reg == Scanned(probe, kind, map[], listing[..i])
        invariant count == |reg|
      {
        var added;
        ghost var prev := reg;
        reg, added := ScanEntry(c, f, r, kind, false, reg, listing[i]);
        ScannedSnoc(probe, kind, map[], listing, i);
        assert |reg| == |prev| + (if added then 1 else 0);
        if added {
          count := count + 1;
        }
        i := i + 1;
      }
      assert listing[..|listing|] == listing;
    }

    /**
     * `rebuild_media_registry`: both sections are rebuilt from empty and
     * saved; the counts are the numbers of distinct hashes found.
     */
    method Rebuild(imageListing: seq<string>, videoListing: seq<string>) returns (imgCount: nat, vidCount: nat)
      requires Valid()
      modifies this
      ensures Valid() && regExists && files == old(files)
      ensures images == Scanned(Prober(ImageKind, false), ImageKind, map[], imageListing)
      ensures videos == Scanned(Prober(VideoKind, false), VideoKind, map[], videoListing)
      ensures imgCount == |images| == |ProbedHashes(Prober(ImageKind, false), imageListing)|
      ensures vidCount == |videos| == |ProbedHashes(Prober(VideoKind, false), videoListing)|
    {
      var imgs, vids;
      imgs, imgCount := RebuildSection(ImageKind, imageListing);
      vids, vidCount := RebuildSection(VideoKind, videoListing);
      FreshScanSize(Prober(ImageKind, false), ImageKind, imageListing);
      FreshScanSize(Prober(VideoKind, false), VideoKind, videoListing);
      images, videos, regExists := imgs, vids, true;
    }

    /** Under the media root, different relative names join to different paths. */
    lemma JoinInjective(x: string, y: string)
      requires RootOk() && !IsAbs(x) && !IsAbs(y)
      ensures PathJoin(root, x) == PathJoin(root, y) ==> x == y
    {
      if PathJoin(root, x) == PathJoin(root, y) {
        assert PathJoin(root, x)[|root| + 1..] == x;
        assert PathJoin(root, y)[|root| + 1..] == y;
      }
    }

    /** `media_path_for_type`: videos go to the base video directory, edited types to the edited-image directory, the rest to base images. */
    function MediaPathForType(mediaType: string): (r: string)
      requires RootOk()
      ensures r == PathJoin(root, "base_videos") <==> mediaType == "VIDEO"
      ensures r == PathJoin(root, "images_edited") <==> mediaType in EditedMediaTypes
      ensures r == PathJoin(root, "base_images") <==> mediaType != "VIDEO" && mediaType !in EditedMediaTypes
    {
      NotAbs("base_videos");
      NotAbs("images_edited");
      NotAbs("base_images");
      JoinInjective("base_videos", "images_edited");
      JoinInjective("base_videos", "base_images");
      JoinInjective("images_edited", "base_images");
      if mediaType == "VIDEO" then PathJoin(root, "base_videos")
      else if mediaType in EditedMediaTypes then PathJoin(root, "images_edited")
      else PathJoin(root, "base_images")
    }
  }
}
