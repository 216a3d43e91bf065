/**
 The registry of criteria fields: built-in names, then the roles, tags and numeric tags of the configuration.
 It decides which catalogues the compiler can meet, and so when merging its conditions is safe.
 */
module CriteriaFields {
  import opened Common
  import opened SqlCondition
  import opened CriteriaSql

  datatype Entry = Entry(alias: string, isTag: bool, isRole: bool, numeric: bool, boolean: bool, nullable: bool)

  type FieldMap = map<string, Entry>

  const SONG: set<string> := {
    "title", "album", "hascoverart", "tracknumber", "discnumber", "size", "compilation", "missing",
    "explicitstatus", "discsubtitle", "comment", "lyrics"}

  const DATES: set<string> := {
    "year", "date", "originalyear", "originaldate", "releaseyear", "releasedate", "dateadded", "datemodified"}

  const SORTING: set<string> := {
    "sorttitle", "sortalbum", "sortartist", "sortalbumartist", "albumcomment", "catalognumber", "library_id",
    "random"}

  const AUDIO: set<string> := {
    "filepath", "filetype", "codec", "duration", "bitrate", "bitdepth", "samplerate", "bpm", "channels",
    "rgalbumgain", "rgalbumpeak", "rgtrackgain", "rgtrackpeak"}

  const ANNOTATION: set<string> := {
    "loved", "dateloved", "lastplayed", "daterated", "playcount", "rating", "averagerating"}

  const MUSICBRAINZ: set<string> := {
    "mbz_album_id", "mbz_album_artist_id", "mbz_artist_id", "mbz_recording_id", "mbz_release_track_id",
    "mbz_release_group_id"}

  const OF_ARTIST: set<string> := {
    "artistrating", "artistloved", "artistplaycount", "artistlastplayed", "artistdateloved", "artistdaterated"}

  const OF_ALBUM: set<string> := {
    "albumrating", "albumloved", "albumplaycount", "albumlastplayed", "albumdateloved", "albumdaterated",
    "albumdateadded", "albumdatemodified", "albumduration", "albumsongcount", "albumsize"}

  const COLUMNS: set<string> := SONG + DATES + SORTING + AUDIO + ANNOTATION + MUSICBRAINZ + OF_ARTIST + OF_ALBUM

  const NUMERIC: set<string> := {"bitdepth", "bpm", "averagerating", "rgalbumgain", "rgalbumpeak", "rgtrackgain",
                                 "rgtrackpeak", "library_id"}

  const BOOLEAN: set<string> := {"hascoverart", "compilation", "missing", "loved", "albumloved", "artistloved"}

  const NULLABLE: set<string> := {
    "album", "explicitstatus", "discsubtitle", "comment", "lyrics", "sorttitle", "sortalbum", "sortartist",
    "sortalbumartist", "albumcomment", "catalognumber", "bitdepth", "bpm", "mbz_album_id", "mbz_album_artist_id",
    "mbz_artist_id", "mbz_recording_id", "mbz_release_track_id", "mbz_release_group_id", "rgalbumgain",
    "rgalbumpeak", "rgtrackgain", "rgtrackpeak"}

  /** Other names of the replay-gain columns. */
  const GAINS: map<string, string> := map[
    "replaygain_album_gain" := "rgalbumgain", "replaygain_album_peak" := "rgalbumpeak",
    "replaygain_track_gain" := "rgtrackgain", "replaygain_track_peak" := "rgtrackpeak"]

  /** The one alias of a tag: albumtype reads the tag releasetype. */
  const ALBUM_TYPE := "albumtype"
  const RELEASE_TYPE := "releasetype"

  /** The tag name that, when configured, stands for a column. */
  const DATE_TAG := "recordingdate"
  const DATE := "date"

  function Column(name: string): Entry {
    Entry("", false, false, name in NUMERIC, name in BOOLEAN, name in NULLABLE)
  }

  function Base(): FieldMap {
    (map n | n in COLUMNS :: Column(n))
    + (map n | n in GAINS :: Entry(GAINS[n], false, false, true, false, true))
    + map[ALBUM_TYPE := Entry(RELEASE_TYPE, true, false, false, false, false)]
  }

  const ROLE := Entry("", false, true, false, false, false)
  const TAG := Entry("", true, false, false, false, false)
  const DATE_ALIAS := Entry(DATE, false, false, false, false, false)

  function WithRole(m: FieldMap, name: string): FieldMap { if name in m then m else m[name := ROLE] }

  function WithTag(m: FieldMap, name: string): FieldMap {
    if name in m then m else m[name := if name == DATE_TAG then DATE_ALIAS else TAG]
  }

  function WithNumeric(m: FieldMap, name: string): FieldMap {
    m[name := if name in m then m[name].(numeric := true) else TAG.(numeric := true)]
  }

  function WithAll(m: FieldMap, names: seq<string>, add: (FieldMap, string) -> FieldMap): FieldMap {
    if names == [] then m else add(WithAll(m, names[..|names| - 1], add), names[|names| - 1])
  }

  function Registered(roles: seq<string>, tags: seq<string>, numeric: seq<string>): FieldMap {
    WithAll(WithAll(WithAll(Base(), roles, WithRole), tags, WithTag), numeric, WithNumeric)
  }

  /** The registry as the configuration hook fills it. Names are in lower case and tag names are not empty. */
  class Registry {
    var fields: FieldMap

    constructor ()
      ensures fields == Base()
    {
      fields := Base();
    }

    method AddRoles(roles: seq<string>)
      modifies this
      ensures fields == WithAll(old(fields), roles, WithRole)
    {
      for i := 0 to |roles|
        invariant fields == WithAll(old(fields), roles[..i], WithRole)
      {
        assert roles[..i + 1][..i] == roles[..i];
        if roles[i] in fields { continue; }
        fields := fields[roles[i] := ROLE];
      }
      assert roles[..|roles|] == roles;
    }

    method AddTagNames(tags: seq<string>)
      modifies this
      ensures fields == WithAll(old(fields), tags, WithTag)
    {
      for i := 0 to |tags|
        invariant fields == WithAll(old(fields), tags[..i], WithTag)
      {
        assert tags[..i + 1][..i] == tags[..i];
        if tags[i] in fields { continue; }
        if tags[i] == DATE_TAG {
          fields := fields[tags[i] := DATE_ALIAS];
        }
        if tags[i] !in fields {
          fields := fields[tags[i] := TAG];
        }
      }
      assert tags[..|tags|] == tags;
    }

    method AddNumericTags(tags: seq<string>)
      modifies this
      ensures fields == WithAll(old(fields), tags, WithNumeric)
    {
      for i := 0 to |tags|
        invariant fields == WithAll(old(fields), tags[..i], WithNumeric)
      {
        assert tags[..i + 1][..i] == tags[..i];
        if tags[i] in fields {
          fields := fields[tags[i] := fields[tags[i]].(numeric := true)];
        } else {
          fields := fields[tags[i] := TAG.(numeric := true)];
        }
      }
      assert tags[..|tags|] == tags;
    }
  }

  /** A field as look-up gives it: an alias goes by the name it stands for. */
  function InfoOf(key: string, e: Entry): FieldInfo {
    FieldInfo(if e.alias != "" then e.alias else key, e.isTag, e.isRole, e.numeric, e.boolean, e.nullable)
  }

  /** The catalogue of a registry. */
  function CatalogOf(m: FieldMap, columns: map<string, ColumnDef>, dateAt: int -> string): Catalog {
    Catalog(map k | k in m :: InfoOf(k, m[k]), columns, dateAt)
  }

  // ----- what is registered

  lemma {:induction false} RolesAt(m: FieldMap, names: seq<string>, k: string)
    ensures var r := WithAll(m, names, WithRole);
            (k in r <==> k in m || k in names) && (k in r ==> r[k] == if k in m then m[k] else ROLE)
  {
    if names != [] { RolesAt(m, names[..|names| - 1], k); }
  }

  lemma {:induction false} TagsAt(m: FieldMap, names: seq<string>, k: string)
    ensures var r := WithAll(m, names, WithTag);
            && (k in r <==> k in m || k in names)
            && (k in r ==> r[k] == if k in m then m[k] else if k == DATE_TAG then DATE_ALIAS else TAG)
  {
    if names != [] { TagsAt(m, names[..|names| - 1], k); }
  }

  lemma {:induction false} NumericAt(m: FieldMap, names: seq<string>, k: string)
    ensures var r := WithAll(m, names, WithNumeric);
            && (k in r <==> k in m || k in names)
            && (k in r ==> r[k] == var e := if k in m then m[k] else TAG; if k in names then e.(numeric := true) else e)
  {
    if names != [] { NumericAt(m, names[..|names| - 1], k); }
  }

  /** The tags of a registry: fields of their own name, and albumtype for releasetype. */
  lemma TagsRegistered(roles: seq<string>, tags: seq<string>, numeric: seq<string>, k: string)
    ensures var m := Registered(roles, tags, numeric);
            && (k in m && m[k].isTag && k != ALBUM_TYPE ==> m[k].alias == "" && m[k].numeric == (k in numeric))
            && (k == ALBUM_TYPE ==> k in m && m[k] == Entry(RELEASE_TYPE, true, false, k in numeric, false, false))
            && (k == RELEASE_TYPE ==> (k in m && m[k].isTag <==> k !in roles && (k in tags || k in numeric)))
            && (k in m && m[k].isTag ==> !m[k].isRole)
  {
    var a := WithAll(Base(), roles, WithRole);
    var b := WithAll(a, tags, WithTag);
    RolesAt(Base(), roles, k);
    TagsAt(a, tags, k);
    NumericAt(b, numeric, k);
    BaseTags(k);
  }

  /** The rest of a registry: built-in fields stay what they are, new names are roles first, then tags. */
  lemma FieldsRegistered(roles: seq<string>, tags: seq<string>, numeric: seq<string>, k: string)
    ensures var m := Registered(roles, tags, numeric);
            && (k in m <==> k in Base() || k in roles || k in tags || k in numeric)
            && (k in m ==> m[k].numeric == (k in numeric || (k in Base() && Base()[k].numeric)))
            && (k in Base() ==> m[k] == Base()[k].(numeric := m[k].numeric))
            && (k !in Base() && k in roles ==> m[k].isRole && !m[k].isTag && m[k].alias == "")
            && (k !in Base() && k !in roles && k in m ==>
                  !m[k].isRole && (m[k].isTag <==> !(k in tags && k == "recordingdate"))
                  && m[k].alias == if m[k].isTag then "" else "date")
  {
    var a := WithAll(Base(), roles, WithRole);
    var b := WithAll(a, tags, WithTag);
    RolesAt(Base(), roles, k);
    TagsAt(a, tags, k);
    NumericAt(b, numeric, k);
    hide Base;
  }

  lemma BaseTags(k: string)
    ensures k in Base() && k != ALBUM_TYPE ==> !Base()[k].isTag && !Base()[k].isRole
    ensures RELEASE_TYPE !in Base()
  {
    NotBuiltIn();
    NotInGains();
  }

  lemma NotInSong()
    ensures RELEASE_TYPE !in SONG
  {
    assert |RELEASE_TYPE| == 11 && RELEASE_TYPE[0] == 'r';
    assert forall n :: n in SONG && |n| == 11 ==> n[0] != 'r';
  }

  lemma NotInDates()
    ensures RELEASE_TYPE !in DATES
  {
    assert |RELEASE_TYPE| == 11 && RELEASE_TYPE[7] == 't';
    assert forall n :: n in DATES && |n| == 11 ==> n[7] != 't';
  }

  lemma NotInSorting()
    ensures RELEASE_TYPE !in SORTING
  {
    assert |RELEASE_TYPE| == 11 && RELEASE_TYPE[7] == 't';
    assert forall n :: n in SORTING && |n| == 11 ==> n[7] != 't';
  }

  lemma NotInAudio()
    ensures RELEASE_TYPE !in AUDIO
  {
    assert |RELEASE_TYPE| == 11 && RELEASE_TYPE[7] == 't';
    assert forall n :: n in AUDIO && |n| == 11 ==> n[7] != 't';
  }

  lemma NotInAnnotation()
    ensures RELEASE_TYPE !in ANNOTATION
  {
    assert |RELEASE_TYPE| == 11 && RELEASE_TYPE[7] == 't';
    assert forall n :: n in ANNOTATION && |n| == 11 ==> n[7] != 't';
  }

  lemma NotInMusicbrainz()
    ensures RELEASE_TYPE !in MUSICBRAINZ
  {
    assert |RELEASE_TYPE| == 11 && RELEASE_TYPE[7] == 't';
    assert forall n :: n in MUSICBRAINZ && |n| == 11 ==> n[7] != 't';
  }

  lemma NotInOfArtist()
    ensures RELEASE_TYPE !in OF_ARTIST
  {
    assert |RELEASE_TYPE| == 11 && RELEASE_TYPE[7] == 't';
    assert forall n :: n in OF_ARTIST && |n| == 11 ==> n[7] != 't';
  }

  lemma NotInOfAlbum()
    ensures RELEASE_TYPE !in OF_ALBUM
  {
    assert |RELEASE_TYPE| == 11 && RELEASE_TYPE[0] == 'r';
    assert forall n :: n in OF_ALBUM && |n| == 11 ==> n[0] != 'r';
  }

  lemma NotInGains()
    ensures RELEASE_TYPE !in GAINS && RELEASE_TYPE != ALBUM_TYPE
  {
    assert |RELEASE_TYPE| == 11 && |ALBUM_TYPE| == 9;
    assert forall n :: n in GAINS ==> |n| == 21;
  }

  lemma NotBuiltIn()
    ensures RELEASE_TYPE !in COLUMNS
  {
    NotInSong();
    NotInDates();
    NotInSorting();
    NotInAudio();
    NotInAnnotation();
    NotInMusicbrainz();
    NotInOfArtist();
    NotInOfAlbum();
  }

  /** The tag releasetype and its alias albumtype are told apart by the numeric flag. */
  predicate SplitReleaseType(roles: seq<string>, tags: seq<string>, numeric: seq<string>) {
    && RELEASE_TYPE !in roles && (RELEASE_TYPE in tags || RELEASE_TYPE in numeric)
    && ((RELEASE_TYPE in numeric) != (ALBUM_TYPE in numeric))
  }

  /**
   For every configuration, and with SQLite's CAST, the compiled rules select what the plain ones do, for every
   tree and row, exactly when releasetype and albumtype are not configured with different types.
   */
  lemma RegistrySafeExactly(roles: seq<string>, tags: seq<string>, numeric: seq<string>,
                            columns: map<string, ColumnDef>, dateAt: int -> string, e: Engine)
    requires CastsWords(e)
    ensures var cat := CatalogOf(Registered(roles, tags, numeric), columns, dateAt);
            (forall x, row :: SameRows(ExprSql(cat, x), NaiveSql(cat, x), e, row))
            <==> !SplitReleaseType(roles, tags, numeric)
  {
    var m := Registered(roles, tags, numeric);
    var cat := CatalogOf(m, columns, dateAt);
    MergingSafeExactly(cat, e);
    assert ConsistentTags(cat) <==> !SplitReleaseType(roles, tags, numeric) by {
      hide Registered;
      forall k
        ensures k in m && m[k].isTag && k != ALBUM_TYPE ==> m[k].alias == "" && m[k].numeric == (k in numeric)
        ensures k in m && m[k].isTag ==> !m[k].isRole
      {
        TagsRegistered(roles, tags, numeric, k);
      }
      TagsRegistered(roles, tags, numeric, ALBUM_TYPE);
      TagsRegistered(roles, tags, numeric, RELEASE_TYPE);
      if SplitReleaseType(roles, tags, numeric) {
        assert SameTag(cat.fields[ALBUM_TYPE], cat.fields[RELEASE_TYPE]);
      }
    }
  }

  /** With releasetype configured as a number, a rule on it beside one on albumtype loses a track. */
  lemma NumericReleaseTypeLosesRows(roles: seq<string>, tags: seq<string>, numeric: seq<string>,
                                    columns: map<string, ColumnDef>, dateAt: int -> string, e: Engine)
    requires CastsWords(e) && RELEASE_TYPE in numeric && RELEASE_TYPE !in roles && ALBUM_TYPE !in numeric
    ensures LosesRow(CatalogOf(Registered(roles, tags, numeric), columns, dateAt),
                     Any([Is(RELEASE_TYPE, Word("x")), Is(ALBUM_TYPE, Word("y"))]), e, TaggedRow())
  {
    var m := Registered(roles, tags, numeric);
    TagsRegistered(roles, tags, numeric, ALBUM_TYPE);
    TagsRegistered(roles, tags, numeric, RELEASE_TYPE);
    hide Registered;
    MixedFlagsLoseRows(CatalogOf(m, columns, dateAt), RELEASE_TYPE, ALBUM_TYPE, e);
  }
}
