# Audit-Tool core, modelled in Dafny

Audit-Tool keeps the findings of vehicle quality audits. Each finding
("Fehlerbild") is a record with photos. A record has a base image, a
transparent canvas overlay, an image after rework, context images,
additional images and videos. The records live in a JSON project index.

Media files live in one global, content-addressed store:
- base images (`MEDIA_IMG__<id>.jpg`) and base videos (`MEDIA_VID__<id>.<ext>`) are immutable;
- they are deduplicated through a SHA-256 registry that maps a hash to a reference;
- canvas overlays (`CANVAS__PRJ_…__AUD_…__NR_…__TYPE_….png`) are per-record files with deterministic names.

This project models:
- the media store: reference naming and classification, path resolution,
  the attach pipeline with its self-healing registry, saving and deleting,
  and detection of shared media;
- the record and index logic: sanitisers, sort keys and sort modes,
  record normalisation, cloning, attaching and detaching list entries,
  schema upgrade, the migration to layered fields, and two-pass overlay
  renumbering;
- the selection and counting helpers of the PDF export and the table of
  contents view, and the counter and lookup helpers of the app.

How the model is built:
- The file system is a `map<string, Bytes>` held by the class
  `MediaStore.Store`, together with the two registry sections and a flag
  for "registry file exists".
- SHA-256, image decoding and re-encoding are uninterpreted functions,
  bundled in the `Codec` datatype. The hash registered for an image is the
  hash of the normalised upload. The file written is a separately
  re-encoded copy. For videos the two coincide.
- The random 16-hex id, today's date and directory listings are
  parameters.
- JSON values are the datatype `Json.Json`; a record is a `Json.Dict`.
  Operations that change a record in place become methods that return the
  new record. Operations on the index are methods of the class
  `AuditIndex.ProjectIndex`, whose `images` field they reassign.
- A Python exception becomes an `Option`/`Result` error value.

The code is followed where it and its design description disagree:
- Reference classification is case-sensitive. `is_*_ref` test prefixes
  and directory names exactly as written.
- `save_overlay_for_record` does not delete an earlier overlay. It
  overwrites the file at the deterministic name.
- `sanitize_filename` also replaces the lowercase letter `n`, because its
  character list is a raw string holding `\n` as two characters.

## Model

| member | source | states |
|---|---|---|
| MediaRefs.Translate | media_store.py:84-86 | Every character of the bad set (`<>:"/\?*`, the letter `n`, backslash) becomes `_`; every other character is kept; the length is unchanged. |
| MediaRefs.Collapse | media_store.py:87-88 | The fixed point of the `while "__" in s` loop keeps the first character, draws only characters of its input, and contains no `__`. |
| MediaRefs.CollapseReplaceDouble | media_store.py:87-88 | One `replace("__", "_")` pass does not change what the loop converges to. |
| MediaRefs.CollapseFixed | media_store.py:87-88 | A name without `__` is left alone by the loop. |
| MediaRefs.SanitizeFilename | media_store.py:81-89 | The while loop ends at the collapsed form of the translated, whitespace-stripped input; empty input gives `""`. |
| MediaRefs.SanitizedNameIsClean | media_store.py:81-89 | A sanitised name contains none of `<>:"/\?*`, no lowercase `n`, no `__`, and neither starts nor ends with `_`. |
| MediaRefs.SanitizedNameFixed | media_store.py:81-89 | A name that is already clean and unpadded is returned unchanged, so sanitising is idempotent on its own output. |
| MediaRefs.Sanitize | common.py:275-277 | The result is as long as the stripped input, holds only alphanumerics, `-` or `_`, and keeps every alphanumeric and `-` in place. |
| MediaRefs.SanitizeChars | common.py:277 | Character by character: kept when alphanumeric, `-` or `_`, else `_`. |
| MediaRefs.BaseImageFilenameIsBaseImageRef | media_store.py:297-357 | A generated base image name is `MEDIA_IMG__` + the 16-character id + `.` + a lowercase extension, and is recognised as a base image reference. |
| MediaRefs.BaseVideoFilenameIsBaseVideoRef | media_store.py:304-366 | The same for base videos with `MEDIA_VID__`. |
| MediaRefs.NormalExtensionShape | media_store.py:299-306 | The extension has exactly one leading dot and is lowercase. |
| MediaRefs.OverlayFilenameIsOverlayRef | media_store.py:311-375 | A generated overlay name starts with `CANVAS__PRJ_`, ends with `.png`, and is an overlay reference. |
| MediaRefs.OverlayFilenameDefaults | media_store.py:319-322 | Empty parts default to PROJ, AUDIT, 000 and FEHLERBILD. |
| MediaRefs.OverlayFilenameNoSeparator | media_store.py:311-325 | A generated overlay name contains neither `/` nor `\`. |
| MediaRefs.CanonicalMediaFilenameNoSeparator | media_store.py:903-914 | The legacy canonical name is a bare file name when the extension is. |
| MediaRefs.CanonicalMediaFilenameDefaults | media_store.py:908-911 | Empty parts give `PROJ__AUDIT__000__MEDIA` + extension. |
| MediaRefs.NoSeparatorKind | media_store.py:351-375 | A separator-free name is a reference of a kind exactly when it starts with that kind's file prefix. |
| MediaStore.KindDirShape | media_store.py:43-45 | Each kind's directory is a plain relative name. |
| MediaStore.LowerStartUnprefixed | media_store.py:411-444 | A name starting with a lowercase letter carries no generated prefix, so it is resolved as a plain relative name. |
| MediaStore.ScannedSnoc | media_store.py:214-226 | Scanning one more listed file is one more step of the scan loop. |
| MediaStore.ScanKeepsEntries | media_store.py:223-224 | A scan never overwrites a registered hash. |
| MediaStore.ScanIsComplete | media_store.py:214-226 | Every listed file the scan can hash is registered afterwards. |
| MediaStore.ScanFirstWins | media_store.py:223-249 | An entry a scan adds points at the first listed file with that hash. |
| MediaStore.ProbedHashes | media_store.py:214-226 | The set of hashes found: every hashable listed file's hash, and only those. |
| MediaStore.ScanKeys | media_store.py:206-252 | After a scan the keys are the old keys plus every hash found. |
| MediaStore.FreshScanSize | media_store.py:975-991 | A scan from an empty registry adds one entry per distinct hash. |
| MediaStore.VideoExtension | media_store.py:629-630 | A new video's extension is never empty and starts with a dot (`.mp4` when the upload has none). |
| MediaStore.MediaRefFromPath | media_store.py:454-468 | An empty path gives `""`. |
| MediaStore.MediaRefFromPathKind | media_store.py:454-468 | The reference is the typed directory followed by the path's base name, and is classified as the kind asked for. |
| MediaStore.LastSegment | media_store.py:697-716 | `ref.split("/")[-1]` contains no `/`. |
| MediaStore.Store.constructor | media_store.py:160-169 | A store without a registry file starts with both sections empty, over the given files and the given set of paths where the file system refuses writes and removals. |
| Text.PathJoin | media_store.py:332-344 | `os.path.join`: an absolute second part replaces the first; otherwise the result ends with the second part. |
| Text.Basename | media_store.py:461 | `os.path.basename` has no `/` and is a suffix of the path. |
| Text.Extension | media_store.py:629 | `os.path.splitext(...)[1]` is empty or a dot-led suffix of the path. |
| Text.Format03RoundTrip | common.py:152-157 | A number formatted with `:03d`, as the image counter (app.py line 104) and the reindex (common.py line 1347) write it, reads back through the `int()` of the sort key as the same number, negative numbers included. |
| MediaStore.Store.FirstExisting | media_store.py:412-451 | The result is the first candidate path that exists, or none when no candidate exists. |
| MediaStore.Store.ScanEntry | media_store.py:215-226 | One turn of a scan loop adds at most one entry, and only for a new hash. |
| MediaStore.Store.Scan | media_store.py:206-252 | The scan loop over the listing computes the scan function. |
| MediaStore.Store.ResolveFacts | media_store.py:397-451 | An empty reference gives none. An absolute one is returned exactly when it exists. A result always exists. A relative miss means no candidate exists; a hit is the first existing candidate. |
| MediaStore.Store.CandidateOrder | media_store.py:411-451 | The typed path of a prefixed name is tried first, then the media-root join, then the project-root join, which comes last. |
| MediaStore.Store.ResolveUnprefixed | media_store.py:441-451 | A relative name without a generated prefix resolves to its media-root join, when that exists. |
| MediaStore.Store.ResolveKindRef | media_store.py:411-429 | `base_images/<name>` and `base_videos/<name>` resolve to the stored file, when it exists. |
| MediaStore.Store.ResolveOverlayRef | media_store.py:431-439 | `overlays/<name>` resolves to the overlay file, when it exists. |
| MediaStore.Store.OverlayResolves | media_store.py:432-436 | A bare generated overlay name resolves to the overlay directory first. |
| MediaStore.Store.JoinInjective | media_store.py:332-344 | Different relative names map to different paths under the media root. |
| MediaStore.Store.SaveSection | media_store.py:172-176 | Saving one section keeps the other and marks the registry file as present. |
| MediaStore.Store.Register | media_store.py:192-199 | The hash's entry becomes the reference, overwriting any earlier one; the other section is kept. |
| MediaStore.Store.EnsurePopulated | media_store.py:255-269 | The section is rebuilt by a scan and saved only when the registry file is missing or the section is empty; otherwise nothing changes. |
| MediaStore.Store.FindExisting | media_store.py:272-290 | An empty hash gives none. With the registry present and its section non-empty, a registered reference that resolves is returned with nothing changed. Otherwise the entry after the repopulating scan is returned, possibly stale. Existing entries are never lost, and new ones come only from the scan. |
| MediaStore.Store.StoreNew | media_store.py:589-641 | Never gives none. A refused write raises and changes nothing. Otherwise the file is written before its reference is registered, and the new reference resolves to it. |
| MediaStore.Store.AttachHashed | media_store.py:579-641 | A resolving registered reference is reused with nothing changed. Otherwise exactly one new file is written and registered, and the call raises exactly when that write is refused, keeping every earlier entry. Afterwards the hash maps to the returned reference, and that reference resolves. |
| MediaStore.Store.AttachImage | media_store.py:556-597 | No upload gives none; a decode failure raises with nothing changed. A decoded image raises only when its new file cannot be written, and attaches otherwise. The registered hash is that of the normalised upload, while the file written is the re-encoded JPEG. A stale entry is replaced by a new file. |
| MediaStore.Store.AttachVideo | media_store.py:600-641 | No upload gives none. A raise means the new video path was refused, and an unrefused path always attaches. The stored bytes are the upload, so the registered hash is the hash of the stored file. A stale entry is replaced by a new file. |
| MediaStore.Store.AttachMedia | media_store.py:486-553 | An existing reference gives none when it does not resolve. Otherwise its canonical form is registered under the file's hash and returned, with no copy made. Without one, the upload is attached as an image or a video: it raises only on a decode failure or a refused write, and any write is at the one new path. |
| MediaStore.Store.AttachImageTwice | media_store.py:556-597 | Attaching the same image twice gives the same reference and writes at most one file, unless the first write was refused. |
| MediaStore.Store.AttachVideoTwice | media_store.py:600-641 | Attaching the same video twice gives the same reference and writes at most one file, unless the first write was refused. |
| MediaStore.Store.SaveBaseImage | media_store.py:690-706 | The returned path is where the registered reference resolves, and the returned name is its last segment. The call raises, with no file changed, exactly when the new image path is refused. The fallback write is unreachable. |
| MediaStore.Store.SaveBaseVideo | media_store.py:709-728 | The same for videos, with the new video path. |
| MediaStore.Store.SaveCanvasOverlay | media_store.py:735-750 | The PNG is written at the deterministic overlay path, replacing any file there, and the name resolves to that path. The call raises, with no file changed, exactly when that path is refused. The registry is untouched. |
| MediaStore.Store.WriteFile | media_store.py:749 | The write fails exactly when the path is refused, and then nothing changes. Otherwise exactly that path changes. |
| MediaStore.Store.DeleteGlobalMedia | media_store.py:795-806 | The result is true exactly when the reference resolves and its file can be removed, and then exactly that file is removed. Otherwise, including a caught removal error, nothing changes. |
| MediaStore.Store.RebuildSection | media_store.py:979-993 | The counting loop builds the scan of the listing from empty, and the count equals the number of entries. |
| MediaStore.Store.Rebuild | media_store.py:967-1012 | Both sections are rebuilt from empty; each count is the number of distinct hashes found. |
| MediaStore.Store.MediaPathForType | media_store.py:917-926 | Videos go to base videos, the five edited types to the edited directory, everything else to base images. |
| MediaSharing.FieldValues | media_store.py:832-834 | The values of the scanned fields, in order. |
| MediaSharing.RecordCounts | media_store.py:828-874 | Each record's count is the number of its slots that hold the normalised reference. |
| MediaSharing.CountSlots | media_store.py:833-839 | The slot loop stops with a hit as soon as the count is positive (with an excluded record) or above one (without); otherwise it adds the matching slots. |
| MediaSharing.CountRecord | media_store.py:832-874 | The same for all slots of one record: its fields, its three entry lists and its videos. |
| MediaSharing.CountedStep | media_store.py:828-874 | A hit on a record decides "shared"; otherwise the running count grows by the record's uses. |
| MediaSharing.CountedAll | media_store.py:876 | Counting every record without a hit means "not shared". |
| MediaSharing.CountUses | media_store.py:825-876 | The record loop, skipping the excluded record by position, decides sharing from the per-record counts. |
| MediaSharing.IsMediaShared | media_store.py:813-876 | The result is false for an empty or overlay reference. With an excluded record it is true exactly when another record holds the reference. Without one, it is true exactly when at least two slots hold it. |
| MediaSharing.OneRecordTwoFields | media_store.py:832-839 | Without an excluded record, one record holding the reference in both `base_image` and `raw` already counts as shared. |
| MediaSharing.SafeDeleteGlobalMedia | media_store.py:879-896 | An empty or shared non-overlay reference is never deleted. An overlay, or an unshared reference, is deleted exactly when it resolves to a file that can be removed. |
| Json.ApplyDefaultsKeeps | common.py:624-632 | A `setdefault` chain never overwrites a present key, supplies its own keys and adds no other. |
| Json.ApplyDefaultsValue | common.py:624-632 | A default whose key is missing takes its fill from the dict as it was. |
| Json.ApplyDefaultsComplete | common.py:624-632 | A `setdefault` chain over keys that are all present changes nothing. |
| Records.MapEach | common.py:681-715 | The update loop over a list gives each entry its updated form, in order. |
| Records.UpdateEach | common.py:681-715 | An in-place loop over the entries computes the mapped list. |
| Records.MirrorEntryFacts | common.py:684-689 | After mirroring, `base`/`overlay` exist, a missing layer takes the legacy value, a missing legacy alias takes the layer, and no other key changes; mirroring again changes nothing. |
| Records.MapCaseClosedFacts | common.py:611-616 | A stored status is kept, a missing one is derived from the flag, and the flag is true exactly when the status is "Closed". |
| Records.MapCaseClosedIdempotent | common.py:611-616 | Mapping twice is mapping once. |
| Records.OnlyOptionsMembers | common.py:649 | The category filter keeps exactly the known categories of its input, in order. |
| Records.FehlerartKeepsOptions | common.py:641-649 | A list of known categories is kept exactly. |
| Records.FehlerartSplitsText | common.py:642-649 | A comma-separated text of known categories splits back into exactly those categories. |
| Records.FehlerDefaultsKeys | common.py:622-632 | The defaults keep every stored value, supply every defaulted key and add no other. |
| Records.FehlerDefaultsValues | common.py:622-632 | `RQMRelevant` comes from `BQPRelevant` when only that is stored. The rework text falls back to `Massnahme`, then `Massnahme_geplant`, then "". Area and domain fall back to Interieur_Vorne and Sonstige. |
| Records.FehlerTextDefaults | common.py:625-630 | `BI_alt` falls back to `Kategorie` and the description to `Kommentar_Audit`. `BI_neu` falls back to `BI_alt` as the earlier default left it, and the rework comment to `Nacharbeit`. |
| Records.FehlerTailFacts | common.py:635-639 | After the tail the status is present and agrees with the flag; the priority is a listed one (anything else becomes "Mittel"); the QZ status is present. |
| Records.NormalizedPriority | common.py:637-638 | In a normalised `fehler` dict a listed priority is kept and anything else is "Mittel". |
| Records.NormalizedFehlerart | common.py:641-649 | The categories of a normalised `fehler` dict are the known categories of the stored value. |
| Records.NormalizedStatus | common.py:611-635 | A normalised `fehler` dict keeps a stored status, and its flag agrees with the status. |
| Records.NormalizedDefaults | common.py:624-639 | QZ status, area, domain and RQM flag are the stored values, or the defaults. |
| Records.NormalizeFehlerIdempotent | common.py:621-651 | Normalising a normalised `fehler` dict changes nothing. |
| Records.MirrorListIn | common.py:679-689 | One entry loop computes the normalised list. |
| Records.EnsureNewFields | common.py:618-715 | The method computes the normalised record: the straight-line defaults, then the three entry loops. |
| Records.MirrorListFacts | common.py:679-689 | A falsy list becomes []; every dict entry is mirrored; other entries are kept. |
| Records.MirrorListIdempotent | common.py:679-689 | Mirroring a list a second time changes nothing. |
| Records.NewFieldsFehler | common.py:621-651 | The record holds the normalised `fehler` dict. |
| Records.NewFieldsKeep | common.py:655-670 | Every stored field except `fehler` and the three entry lists keeps its value. |
| Records.NewFieldsKeys | common.py:655-670 | Every record default is present, and no other field is added. |
| Records.NewFieldsLists | common.py:679-715 | Each entry list is normalised: [] for a falsy value, every dict entry mirrored. |
| Records.NewFieldsLayers | common.py:665-670 | `base_image`/`overlay` default to the legacy `raw`/`edited` values, and `after_base`/`after_overlay` to `after_raw`/`after_edited`; a value already present is kept. |
| Records.NormalRecordIdle | common.py:618-715 | A record whose fields are all normal is left alone. |
| Records.NewFieldsIdempotent | common.py:618-715 | Running `ensure_new_fields` on its own output changes nothing. |
| Options.OptionsUnpadded | common.py:62-65 | The category names carry no surrounding whitespace and no comma. |
| RecordOps.MainOverlayDefaults | common.py:358-360 | An empty audit or number is named like AUDIT and 000. |
| RecordOps.DisplayNameIsOverlayRef | common.py:353-360 | The display name is an overlay reference without a path separator. |
| RecordOps.DisplayNameNone | common.py:358-360 | There is no display name exactly when `audit_id` or `nr` is a truthy non-text. |
| RecordOps.DisplayNameDefaults | common.py:358-360 | A record without `audit_id` and `nr` is shown under the default parts. |
| RecordOps.NewRecordNormal | common.py:543-572 | A fresh record already has every record field in normal form. |
| RecordOps.CloneRecord | common.py:585-607 | The clearing loops followed by `ensure_new_fields` compute the clone. |
| RecordOps.ClearListIn | common.py:597-605 | One clearing loop clears `overlay`/`edited` of every entry. |
| RecordOps.ClonedIdentity | common.py:586-588 | The clone carries its new number and audit, and a link back to its source's audit and number. |
| RecordOps.ClonedOverlaysCleared | common.py:591-605 | The clone owns no overlay: its four overlay fields are empty, and so is every overlay in its entry lists. |
| RecordOps.ClonedListsCleared | common.py:596-605 | Each entry list of the clone has one entry per source entry, with overlays cleared. |
| RecordOps.ClonedShares | common.py:585-607 | The clone shares the source's base image (no file copied), its normalised `fehler` dict and every other field. |
| RecordOps.ClonedBaseAndFehler | common.py:585-607 | The clone's base image is the source's, and its `fehler` dict is the source's, normalised. |
| RecordOps.LinkVideoFacts | common.py:385-391 | Linking keeps every other field, keeps the old videos in front in order, adds at most one entry, and afterwards holds the reference. It fails only on a `videos` value that cannot be extended. |
| RecordOps.LinkVideoIdempotent | common.py:389-390 | Linking the same video twice links it once. |
| RecordOps.NewProjectIsCurrent | common.py:439-447 | A new project index is of the current schema. |
| RecordOps.LegacyAuditIdClean | common.py:455 | The legacy audit id is a clean file-name part. |
| RecordOps.ImportImagesFacts | common.py:457-461 | The import keeps one record per legacy record, in order, each normalised and moved into the legacy audit. It fails exactly on an `images` value the loop cannot walk. |
| RecordOps.ImportLoop | common.py:458-460 | The loop computes the import. |
| RecordOps.BuildLegacyIndex | common.py:449-464 | The method builds the schema-3 index of a legacy one. |
| RecordOps.EnsureV2Schema | common.py:446-464 | The method computes the upgrade; a current index is returned as it is. |
| RecordOps.UpgradeIdempotent | common.py:446-464 | The upgraded index is current, so upgrading it again changes nothing. |
| RecordOps.UpgradeLegacyFacts | common.py:449-464 | A legacy index becomes schema 3 with one audit, every legacy record lands in that audit, and the image counter is the number of records. |
| AuditIndex.CounterStep | app.py:100-103 | Raising the counter adds exactly one and keeps every other counter. |
| AuditIndex.CounterNumberReadsBack | app.py:104 | The number handed out reads back as the new counter. |
| AuditIndex.CounterStartsAtOne | app.py:100-101 | Without counters the first number is 1. |
| AuditIndex.ProjectIndex.constructor | common.py:439-444 | An index object holds exactly the records, counters and project block it is built from. |
| AuditIndex.ImagesForAuditFacts | app.py:106-111 | The audit's records are exactly those of the index that belong to it, in index order. |
| AuditIndex.FirstWhere | app.py:119-121 | The first position whose record satisfies the test. |
| AuditIndex.FindImageIdxByNr | app.py:113-122 | The result is the first position holding the number. When none holds it, the result is the last position, or 0 for an empty list. |
| AuditIndex.ProjectIndex.IncrementImageCounter | app.py:95-104 | The image counter goes up by one and the new value is returned zero-padded to three digits. A counters block or counter that cannot be used changes nothing. |
| AuditIndex.ProjectIndex.AddImageRecord | common.py:543-574 | The new record, with every field at its initial value, is appended. |
| AuditIndex.ProjectIndex.CloneImageToAudit | common.py:576-609 | The counter is raised by one, and the clone, numbered with it, is appended. The source and every other record are unchanged. |
| AuditIndex.ProjectIndex.AppendImage | common.py:608 | The record is appended, and the list is created when missing. |
| AuditIndex.ProjectIndex.LinkVideoToRecord | common.py:385-429 | The first record of the audit with the number has the video linked, and the loop stops there. |
| AuditIndex.ProjectIndex.SaveVideoFile | common.py:375-396 | The video is stored through the media store and registered under its content hash. A refused write of the new video raises with the index and files unchanged. With a non-empty record number, `base_videos/<file name>` is linked to the first record of the audit with that number, the index keeps no other change, and no path is returned exactly when that record exists and linking fails; without a number the index is unchanged and the stored path is returned. |
| AuditIndex.PromoteFacts | common.py:1392-1405 | Promoting twice is promoting once, and afterwards the layer is set whenever the legacy field is. |
| AuditIndex.MigrateEntries | common.py:1408-1426 | Every list entry up to the first non-dict one is migrated; the loop raises there. |
| AuditIndex.MigrateAllSnoc | common.py:1389-1429 | Migrating one record more extends the result by that record. |
| AuditIndex.MigrateStep | common.py:1389-1429 | One turn of the loop replaces the record at `i` by its migration. |
| AuditIndex.MigrateAllAt | common.py:1389-1429 | Each record of the result is that record migrated on its own. |
| AuditIndex.MigrateLayersFacts | common.py:1392-1405 | Every set legacy field gets its layer field set, a layer field that was set keeps its value, and nothing else changes. |
| AuditIndex.MigrateEntriesIdempotent | common.py:1408-1426 | Migrating the entries again changes nothing and raises at the same entry. |
| AuditIndex.MigrateRecordIdempotent | common.py:1389-1429 | Migrating a record again changes nothing and counts nothing. |
| AuditIndex.ProjectIndex.MigrateToLayered | common.py:1377-1431 | Every record has its layer fields promoted. The counter counts promoted base fields. A record that raises adds one error, and the loop goes on. |
| AuditIndex.MigrateAllIdempotent | common.py:1377-1431 | After a migration without errors, migrating again changes nothing and counts nothing. |
| RecordMedia.OverlayRefForIsOverlayRef | common.py:737 | A stored `overlays/<name>` reference is an overlay reference. |
| RecordMedia.WithOverlayFacts | common.py:739-744 | The main overlay goes to `overlay` and `edited`, the Nacharbeit overlay to the after fields; any other type changes nothing. |
| RecordMedia.WriteOverlay | media_store.py:735-750 | The overlay is written under its deterministic name, and the returned reference resolves to that file. The call raises, with no file changed, exactly when that path is refused. |
| RecordMedia.SaveOverlayForRecord | common.py:721-746 | The overlay is written under the record's deterministic name, overwriting and deleting nothing else; a refused path raises with no file changed. The returned reference is stored in the fields of the overlay type. |
| RecordMedia.SaveEntryOverlay | common.py:760-796 | An entry's overlay is named with its one-based index and stored in that entry alone. An out-of-range index changes nothing, a non-dict entry raises before writing, a refused path raises with no file changed, and otherwise the file is written and resolves. |
| RecordMedia.EntrySavedFacts | common.py:770-771 | Only that entry's `overlay` and `edited` change. |
| RecordMedia.SaveCtxAnnotated | common.py:756-771 | An out-of-range index changes nothing. A non-dict entry raises before writing, a refused overlay path raises with no file changed, and otherwise the KONTEXT overlay file is written, resolves, and is stored in that context entry alone. |
| RecordMedia.SaveAdditionalAnnotated | common.py:773-796 | The phase selects the list and overlay type, and the same cases hold: an out-of-range index changes nothing, a non-dict entry or a refused path raises without a write, and otherwise the file is written, resolves and is stored in that entry alone. |
| RecordMedia.FehlerPhaseCases | common.py:775 | Here and in `attach_additional_images`, only spellings of "fehler" select the defect list; every other phase selects the rework list. |
| RecordMedia.DeleteEntryOverlay | common.py:851-853 | An entry's overlay file is deleted exactly when the entry owns one: the file its overlay reference resolves to, when that file can be removed. Nothing else is removed, and a non-dict entry raises. |
| RecordMedia.DeleteListOverlays | common.py:850-895 | Every overlay file owned by an entry before the first non-dict entry is gone afterwards. Only owned overlay files are removed, never a base image. |
| RecordMedia.NewEntryNormal | common.py:861-887 | A new entry is already mirrored and owns no overlay. |
| RecordMedia.AttachContextImages | common.py:844-866 | With an upload, the files owned by the old context entries are removed and only files its overlay references resolve to are. The list becomes exactly the first upload's outcome, whose hash is registered with the entry's reference, which resolves. The only file written is the new image path. With readable entries, a decode failure raises, and a raise means a decode failure or a refused write. |
| RecordMedia.AttachAdditionalImages | common.py:868-887 | The phase's list becomes the old list followed by the entries of the uploads that attach, in order. Each attached upload's hash maps to its entry's reference, which resolves. Files are written only at the uploads' new image paths. Other keys are kept, and the call succeeds when every image decodes and no new path is refused. |
| RecordMedia.AttachEach | common.py:879-887 | The upload loop returns the entries of the uploads that attach, in order. Each attached upload's hash maps to its entry's reference, which resolves at the end. Files are written only at the uploads' new image paths. Nothing is added when the list cannot take entries. |
| RecordMedia.RemoveFacts | common.py:905-922 | Removing an entry keeps the others in order. |
| RecordMedia.DetachedAtFacts | common.py:899-924 | An index outside the list leaves the record as it was; one inside removes exactly that entry. |
| RecordMedia.DetachAt | common.py:899-907 | The entry is removed. Its overlay file is deleted exactly when the entry owns one, and nothing else is removed. |
| RecordMedia.DetachContextImage | common.py:889-907 | Without an index every context overlay file is deleted and the list is emptied, and every removed file is one an entry's overlay reference resolves to. With one, only that entry is removed. Only its owned file is deleted, and nothing is removed when it has no overlay reference. |
| RecordMedia.EmptyPhaseLists | common.py:773-912 | An empty phase saves to and attaches to the rework list, but detaches from the defect list. |
| RecordMedia.DetachAdditionalImage | common.py:909-929 | One entry of the list the phase selects is detached. Only its owned file is deleted, and nothing is removed when it has no overlay reference. |
| Reindex.MovedKeepsContents | common.py:1304 | A move onto a free name keeps the number of files and every content. |
| Reindex.MoveFile | common.py:1304 | `shutil.move` onto a free path: the content moves and nothing else changes. |
| Reindex.CandidateInjective | common.py:1297-1299 | Different counters give different paths, so the collision search ends. |
| Reindex.CounterBound | common.py:1297-1299 | Every counter tried names an existing file. |
| Reindex.FindFreeName | common.py:1294-1300 | The collision loop returns the first free `<base>_<k><ext>` with k counted from 1. |
| Reindex.TargetName | common.py:1287-1288 | The new overlay name is shaped like a generated overlay name: `CANVAS__PRJ_` in front, `.png` at the end. |
| Reindex.Relocate | common.py:1287-1308 | The file moves to the target name, or to the first free suffixed name. The same path is kept as it is. A failed move keeps the old reference and records an error. |
| Reindex.RelocatedNamed | common.py:1287-1308 | A relocated reference is the old one, the generated name, or one of its `_<k>` variants. |
| Reindex.RenameOverlay | common.py:1273-1308 | An empty reference gives none. A non-overlay reference, or one naming no file, is kept. Otherwise the overlay moves to the name generated for the new number, or its first free `_<k>` variant, and the new reference holds the old content. |
| Reindex.RenameEntry | common.py:1310-1320 | One list entry: its overlay is renamed, the store keeps every content and its registry, and every error is a move error. |
| Reindex.RenameList | common.py:1310-1320 | One entry list of the record is renamed entry by entry, and every other field is kept. |
| Reindex.RenameEntries | common.py:1310-1320 | Each entry's overlay is renamed with its one-based position, and the new reference is stored under `overlay` and `edited`. |
| Reindex.RenamePair | common.py:1327-1338 | `rec.get(a) or rec.get(b)` is renamed into both keys. |
| Reindex.RecordSteps | common.py:1326-1343 | The five steps of one pass (main pair, after pair, three lists) together rename the record. |
| Reindex.RenameRecord | common.py:1326-1343 | One pass over one record renames the main and after overlays and the three entry lists. |
| Reindex.RecordRenamedTrans | common.py:1322-1366 | After both passes every overlay reference is kept or named for the temporary or the final number (or a `_<k>` variant). All other fields are kept. |
| Reindex.ReindexOrderIsStableSort | common.py:1266-1270 | The audit's records are numbered in a stable sort by their old number's text: each once, a smaller number first, ties in index order. |
| Reindex.OrderCoversAudit | common.py:1266 | Every record of the audit is numbered. |
| Reindex.OrderDistinct | common.py:1266-1270 | No record is numbered twice. |
| Reindex.ReindexOrder | common.py:1266-1270 | The order lists one index position per record of the audit, each inside the index. |
| Reindex.AuditPositionsPick | common.py:1266 | The audit positions pick out exactly the audit's records, in index order. |
| Reindex.OrderSorted | common.py:1270 | Along the order, no later record has a smaller number than an earlier one. |
| Reindex.OrderStable | common.py:1270 | Records with equal numbers keep their index order. |
| Reindex.ProjectIdValue | common.py:1271 | The project id is the stored one or PROJ; none where the lookup raises. |
| Reindex.SetImage | common.py:1346-1369 | Writing the renumbered record back replaces exactly that position of the index. |
| Reindex.TempPass | common.py:1322-1343 | Pass 1 renames each audit record's overlays to names generated for its temporary number, and touches nothing outside the audit. |
| Reindex.FinalPass | common.py:1345-1369 | Pass 2 renames the k-th record's overlays to names generated for number k+1 and sets its `nr`. |
| Reindex.ReindexAuditImages | common.py:1256-1371 | An empty audit returns 0 and its message. Otherwise the audit's records are numbered 001, 002, … in the stable order. Each overlay reference is kept or renamed to a name generated for the record's temporary or final number. Other records are untouched, and move failures are collected. |
| Reindex.ReindexNumbersOneToN | common.py:1256-1371 | After a reindex the audit's records stay in the audit and carry the numbers 001 … n, each exactly once. |
| Reindex.NumbersDiffer | common.py:1347 | Different places in the order get different numbers. |
| Sorting.RankIsPosition | common.py:129-139 | A rank is the first listed position of the value, or the list length for an unknown one. |
| Sorting.AreaDomainRanks | common.py:127-139 | Areas and domains rank by list position, with unknown values after all known ones; missing values read as Interieur_Vorne and Sonstige. |
| Sorting.BiRanks | common.py:141-146 | An unknown BI ranks 0, with the unclassified one. |
| Sorting.StatusRanks | common.py:148-150 | The status rank is 1 exactly for "Closed". |
| Sorting.NrRanksDefaults | common.py:152-157 | A missing number ranks 999, one `int` cannot read ranks 9999. |
| Sorting.NrRankFormatted | common.py:153-155 | A three-digit number ranks by its value. |
| Sorting.SortByIsStableSort | common.py:228-251 | A sort is a permutation ordered by key (descending when reversed) that keeps equal keys in input order, also when reversed. |
| Sorting.SortWithModeIsStableSort | common.py:181-253 | For every mode, the result is a stable sort of a copy of the input by the mode's key; empty input gives []. |
| Sorting.OfferedStatusModesFallBack | common.py:166-251 | The four status and rework labels the selectbox offers select no branch, so they sort in the default audit order. |
| Sorting.OfferedStatusLabelsUnmatched | common.py:174-248 | Those four labels differ from every label the dispatcher tests. |
| Sorting.OfferedLabelsSelectTheirModes | common.py:166-248 | With the intended dispatcher, the k-th offered label selects the k-th order, so no two labels share one. |
| Sorting.IntendedOpenFirst | common.py:174-242 | With the intended dispatcher, "Status Open (zuerst)" is a permutation that puts every open case before every closed one. |
| Sorting.IntendedOpenDispatch | common.py:174-242 | With the intended dispatcher, "Status Open (zuerst)" sorts by the open-first key, ascending. |
| Sorting.OpenBeforeClosed | common.py:241-242 | Sorting by the open-first key is a permutation that puts every open case before every closed one. |
| Sorting.DefaultSortsByArea | common.py:199-228 | The default order never puts a record of a later area before one of an earlier area. |
| Sorting.AreaLeads | common.py:159 | When one key is not smaller than another, its area rank is not smaller either: the area leads the key. |
| Export.AuditsMap | export.py:848 | A later audit with the same id replaces an earlier one; none where an audit has no id. |
| Export.SelectImages | export.py:839-863 | The index's records, filtered by scope, then by the audit list or the report mode. |
| Export.SelectImagesIsFilter | export.py:839-863 | The selection is exactly the order-preserving filter of the records by the scope and audit conditions. |
| Export.SelectionProperties | export.py:850-861 | The selection is an order-preserving sub-list within the scope filter and the audit list. In a report mode without a list it is within the single audit, and empty without one. |
| Export.SelectedOnly | export.py:994-1000 | A non-empty key list keeps exactly the records whose `audit_id__nr` is listed; otherwise everything is kept. |
| Export.ChapterSet | export.py:1005-1010 | No list gives {1,2,3}; otherwise the listed values within {1,2,3}, or all three when none is; none where `int()` fails. |
| Export.BiKey | export.py:869-877 | A blank BI counts as BI0-tbd.; other text counts as itself. |
| Export.BiCountsOf | export.py:865-880 | The loop computes the pre and post category counts. |
| Export.BiCountsSum | export.py:865-880 | Both tables add up to the number of records. |
| Export.BiCountsCount | export.py:865-880 | Each category counts exactly the records in it. |
| Export.PostKeyRule | export.py:874 | The post category follows `BI_neu` only once rework is done, and `BI_alt` otherwise. |
| Export.TruthyTextsMembers | export.py:399-403 | The entries shown are exactly the non-empty text entries. |
| Export.MultiDisplay | export.py:394-407 | The loop with its `seen` set shows each distinct truthy entry once, by label and in first-occurrence order. |
| Export.AreaDisplay | export.py:392-407 | The area text of a `fehler` dict. |
| Export.SystemDisplay | export.py:410-425 | The system text of a `fehler` dict. |
| Export.DisplayShowsEachEntryOnce | export.py:392-425 | A non-empty multi list shows each distinct entry exactly once, in first-occurrence order; the single value is used only without it. |
| Export.DisplayNonEmpty | export.py:404-425 | The text is never empty; "—" stands for nothing. |
| Export.CountStatus | export.py:1103-1111 | The chapter-1 loop computes the open/closed, RQM and QZ tallies. |
| Export.TalliedCounts | export.py:1103-1111 | The loop's tallies equal the sizes of the matching filters and the occurrences of each QZ state. |
| Export.StatusCountsCover | export.py:1103-1111 | Open plus closed, and yes plus no, each equal the number of records; QZS and QZF are always listed. |
| Inhaltsangabe.HtmlEscape | inhaltsangabe_visualization.py:130 | `html.escape` replaces each special character by its entity. |
| Inhaltsangabe.EscapeTooltipSafe | inhaltsangabe_visualization.py:122-137 | The escaped text contains no `<`, `>`, `"`, `'`, newline or carriage return. |
| Inhaltsangabe.EscapeTooltipNewlines | inhaltsangabe_visualization.py:132 | On text whose only special characters are newlines, each newline becomes `&#10;` and nothing else changes. |
| Inhaltsangabe.EscapeTooltipFirst | inhaltsangabe_visualization.py:127-137 | Non-empty text whose first character needs no escaping stays non-empty. |
| Inhaltsangabe.TooltipParts | inhaltsangabe_visualization.py:155-161 | One headed paragraph for each of the measure and the comment that is not blank. |
| Inhaltsangabe.TooltipTextNonEmpty | inhaltsangabe_visualization.py:163-166 | With a paragraph to show, the tooltip is not empty. |
| Inhaltsangabe.HasInfoOfFields | inhaltsangabe_visualization.py:215-228 | `has_nacharbeit_info` tells whether either field is not blank, and fails exactly where reading the fields fails. |
| Inhaltsangabe.BuildNacharbeitTooltip | inhaltsangabe_visualization.py:140-228 | The tooltip is "" exactly when the record has no rework information. It fails only where reading the fields fails. |
| Inhaltsangabe.AllValues | inhaltsangabe_visualization.py:255-278 | A non-empty multi list is returned as it is; else the truthy single value alone; else []. |
| Inhaltsangabe.PrimaryDefaults | inhaltsangabe_visualization.py:281-290 | A missing or empty field gives Nicht_zugewiesen (area) or Sonstige (system); the primary value is never falsy. |
| Inhaltsangabe.AllValuesPrimary | inhaltsangabe_visualization.py:255-290 | Without a multi list, an empty list means the primary value is the default, and a non-empty list holds the primary value alone. |
| Inhaltsangabe.BadgeShape | inhaltsangabe_visualization.py:312-328 | A badge is titled with the full label and shows the short one. |
| Inhaltsangabe.Badges | inhaltsangabe_visualization.py:310-328 | One badge per key, in order, each in the badge markup of that key. |
| Inhaltsangabe.RenderBadges | inhaltsangabe_visualization.py:293-367 | The placeholder when nothing is left to show, otherwise the badges concatenated. |
| Inhaltsangabe.PlaceholderWhenNothingShown | inhaltsangabe_visualization.py:301-308 | The placeholder is shown exactly when the list is empty or every entry is the excluded one. |
| Inhaltsangabe.BadgesPerEntry | inhaltsangabe_visualization.py:305-329 | Otherwise there is one badge per entry other than the excluded one, in order, titled with its full label. |
| Inhaltsangabe.RenderAreaBadges | inhaltsangabe_visualization.py:293-329 | The area badge row, in the area style, for the entries other than the excluded area. |
| Inhaltsangabe.RenderSystemBadges | inhaltsangabe_visualization.py:332-367 | The system badge row, in the system style, for the entries other than the excluded system. |
| Inhaltsangabe.GroupFehlerbilder | inhaltsangabe_visualization.py:411-434 | The loop fills the nested groups; it fails exactly when a row cannot be read or keyed. It also returns the dicts' key order: the areas are exactly the outer keys, each once, in the order of its first row, and each area's systems are exactly its inner keys, each once, in the order of their first row under that area. |
| Inhaltsangabe.AreasInFirstRowOrder | inhaltsangabe_visualization.py:421-432 | An area listed before another has a row before every row of the later area, so the views meet the areas in first-row order. |
| Inhaltsangabe.GroupedIsFilter | inhaltsangabe_visualization.py:421-432 | A group exists exactly for the keys some row has, and holds exactly the rows with that key, in input order. |
| Inhaltsangabe.GroupedAreas | inhaltsangabe_visualization.py:421-432 | Every system group under an area comes from a row with that area and that system. |
| Inhaltsangabe.RowInItsGroup | inhaltsangabe_visualization.py:423-432 | Every row is in the group of its own key and in no other. |
| Inhaltsangabe.RowInNoOtherGroup | inhaltsangabe_visualization.py:423-432 | A row is in no group keyed differently from its own area and system. |
| Inhaltsangabe.GroupSizeIsTally | inhaltsangabe_visualization.py:423-432 | Each group's size is the number of rows with its key. |
| Inhaltsangabe.GroupSizesSum | inhaltsangabe_visualization.py:411-434 | The group sizes add up to the number of rows. |
| Inhaltsangabe.FilterRowsExact | inhaltsangabe_visualization.py:473-479 | The open-only and rework filters keep, in order, exactly the rows that pass; they fail only on an unreadable row. |
| Inhaltsangabe.SelectByValuesExact | inhaltsangabe_visualization.py:1165-1171 | A non-empty selection keeps, in order, exactly the rows one of whose areas (systems) is selected. |

## Findings

| source | as written | input that shows it | evidently intended | confidence | as-written member | corrected member |
|---|---|---|---|---|---|---|
| common.py:174-177 | The sort-mode list offers "Status Open (zuerst)", "Status Closed (zuerst)", "Nacharbeit = Ja (zuerst)" and "Nacharbeit = Nein (zuerst)". The dispatcher (lines 241-248) tests "Status (Open zuerst)", "Status (Closed zuerst)", "Nacharbeit = Ja zuerst" and "Nacharbeit = Nein zuerst". | Mode "Status Open (zuerst)", chosen in the PDF export's sort selectbox, gives the default audit order instead of open cases first. | Every offered label selects its own order (the list is commented as having to match the selectbox exactly). | high (not executed) | Sorting.OfferedStatusModesFallBack | Sorting.OfferedLabelsSelectTheirModes |

`Sorting.SortWithMode` is the dispatcher as written. `Sorting.IntendedSortWithMode` is the corrected one, and `Sorting.IntendedOpenFirst` proves the status order for it.

## Left out

- I/O: reading and writing the registry JSON and the index JSON, creating directories and listing them. The store's state is in memory, and listings are parameters in the order the OS returns them. Media file writes and removals can fail, at the paths in the store's fixed `failing` set. The registry and index writes never fail, and a refusal that depends on time or on what was written before is not modelled.
- Hashing and pixels: SHA-256, decoding (including HEIC), RGB conversion, JPEG/PNG encoding, downscaling and compositing are uninterpreted `Codec` functions.
- The random id of new base media, and today's date, are parameters.
- PDF drawing, charts, the per-audit open/closed table of chapter 1, and the Streamlit views are left out: `render_nacharbeit_info_icon`, `render_badge_legend`, the view-local sort options and all `st.*` calls.
- `link_existing_video_to_record` is modelled by its list-append loop only. Its use of `os.path.relpath` (`media_ref_from_global_path`) depends on the platform's path semantics.
- `os.path.normpath` is the identity, and `os.path.exists` is membership in the file map.
- Text is handled as follows:
  - `str.upper`/`lower` cover ASCII (and Latin-1 for `lower`) only;
  - `str(x)` of a nested list or dict is represented by its opening bracket only (`Json.PyStr`), not by Python's full text of it;
  - the category list entries and the single display value are taken as text where the source calls `str()`.
- Python's `1 == True` is not modelled: JSON booleans and numbers are different values.
- A truthy `fehler` value that is not a dict is treated as `{}`. Python raises there.
- MediaSharing.EntrySlots: skips a list entry that is not a dict. The source raises AttributeError on `entry.get` there (media_store.py:843). In Python, `safe_delete_global_media` then raises before it deletes anything, while the model may delete the file.
- MediaSharing.Matches: treats a truthy slot value that is not text as not matching. The source raises AttributeError on `.replace` there (media_store.py:834), with the same consequence for the deletion.
- MediaSharing.RecordSlots: reads a truthy list field that is not a list as empty. The source iterates it (media_store.py:841-869): a number raises, with the same consequence for the deletion, and a text is scanned character by character.
- Records.MirrorList: keeps a truthy number or `true` stored under an entry-list key. The entry loop raises TypeError on iterating it (common.py:681).
- AuditIndex.ProjectIndex.AddImageRecord: the index always holds its `images` list. An index without that key, where the append raises KeyError (common.py:573), is not represented.
- Sorting.NrKey: compares every `nr` by its text, and a stored number by its decimal digits. Python compares all-number values numerically and raises TypeError on a mix of numbers and text (common.py:230-232); neither is modelled.
- Sorting.FehlerortKey: lower-cases the text of a `Fehlerort` that is not text. Python raises AttributeError on `.lower()` there (common.py:238-240).
- Reindex.RecordRenamedTrans: states which names a record's references end with, not that each still resolves to the content it named before. Two entries sharing one overlay file make that false: the second rename finds the file gone and keeps its reference. The content fact is stated per reference, by `Reindex.RenameOverlay`.
- Records are identified by their position in the index. Two positions holding the same dict object (aliasing) are not modelled.
- On an exception part-way through a record, partial edits to that record are not modelled. The record is left as it was before that record's step. The migration and reindex errors are recorded without their message texts.
- Reindex.ReindexAuditImages: orders records by the text of their number (a missing `nr` counts as "999"). Python sorts all-number `nr` values numerically and raises only on a mix of types or on several null values (common.py:1270); the model returns none as soon as an audit with two or more records has any `nr` that is not text, so the all-number audits Python reindexes are a failure here.
- The registry read–modify–write race between processes is out of scope: the store is single-threaded.
