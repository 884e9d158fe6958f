/** The static save-game database `DB` of the Kerbalism-lite layer
  * (src/Kopernicus/Components/KERBALISMLITE/Database/DB.cs): the key escaping helpers, the
  * sanitising of the saved version string, and the per-vessel dictionary that `Load`, `Save` and
  * the `KerbalismData` extension methods maintain.
  *
  * The static fields of `DB` become the fields of one `Database` object. What the game gives the
  * code (the values read from the `ConfigNode`, the persisted proto-vessels, `Lib.RandomInt`, the
  * current Kerbalism version and the parsing done by `System.Version`) is given to the model as
  * parameters. */
module KerbalismDB {
  import opened Numerics
  import opened KerbalismVessel

  // ---------------------------------------------------------------- Safe keys

  /** `String.Replace(pat, rep)`: every occurrence of `pat`, scanning left to right and without
    * overlaps, is replaced by `rep`. (`String.Replace` throws for an empty `pat`.) */
  function Replace(s: string, pat: string, rep: string): string
    requires |pat| > 0
    decreases |s|
  {
    if |s| == 0 then ""
    else if pat <= s then rep + Replace(s[|pat|..], pat, rep)
    else [s[0]] + Replace(s[1..], pat, rep)
  }

  /** `To_safe_key`: spaces become three underscores. */
  function ToSafeKey(key: string): string
  {
    Replace(key, " ", "___")
  }

  /** `From_safe_key`: each run of three underscores, from the left, becomes a space. */
  function FromSafeKey(key: string): string
  {
    Replace(key, "___", " ")
  }

  /** Replacing a single character by a text that does not contain it removes it entirely. */
  lemma {:induction false} ReplaceRemovesChar(s: string, c: char, rep: string)
    requires c !in rep
    ensures c !in Replace(s, [c], rep)
    decreases |s|
  {
    if |s| > 0 {
      ReplaceRemovesChar(s[1..], c, rep);
      if [c] <= s {
        assert s[|[c]|..] == s[1..];
      } else {
        assert s[0] != c;
      }
    }
  }

  /** A text without the pattern is left as it is. */
  lemma {:induction false} ReplaceAbsent(s: string, c: char, rep: string)
    requires c !in s
    ensures Replace(s, [c], rep) == s
    decreases |s|
  {
    if |s| > 0 {
      assert s[0] != c;
      assert !([c] <= s);
      assert c !in s[1..];
      ReplaceAbsent(s[1..], c, rep);
      assert s == [s[0]] + s[1..];
    }
  }

  /** A safe key never contains a space. */
  lemma {:induction false} SafeKeyHasNoSpace(key: string)
    ensures ' ' !in ToSafeKey(key)
  {
    ReplaceRemovesChar(key, ' ', "___");
  }

  /** A key without spaces is its own safe key. */
  lemma {:induction false} SafeKeyOfSpaceless(key: string)
    requires ' ' !in key
    ensures ToSafeKey(key) == key
  {
    ReplaceAbsent(key, ' ', "___");
  }

  /** `From_safe_key` undoes `To_safe_key` on every key that contains no underscore. */
  lemma {:induction false} SafeKeyRoundTrip(key: string)
    requires '_' !in key
    ensures FromSafeKey(ToSafeKey(key)) == key
    decreases |key|
  {
    if |key| > 0 {
      var rest := key[1..];
      assert '_' !in rest;
      SafeKeyRoundTrip(rest);
      var t := ToSafeKey(rest);
      if key[0] == ' ' {
        assert [' '] <= key;
        assert key[|[' ']|..] == rest;
        assert ToSafeKey(key) == "___" + t;
        var u := "___" + t;
        assert "___" <= u;
        assert u[|"___"|..] == t;
        assert FromSafeKey(u) == " " + FromSafeKey(t);
      } else {
        assert !([' '] <= key);
        assert ToSafeKey(key) == [key[0]] + t;
        var u := [key[0]] + t;
        assert u[0] == key[0] && key[0] != '_';
        assert !("___" <= u);
        assert u[1..] == t;
        assert FromSafeKey(u) == [key[0]] + FromSafeKey(t);
      }
      assert key == [key[0]] + rest;
    }
  }

  /** A text that starts with the pattern: the replacement, then the rest replaced. */
  lemma {:induction false} ReplaceAtPattern(pat: string, t: string, rep: string)
    requires |pat| > 0
    ensures Replace(pat + t, pat, rep) == rep + Replace(t, pat, rep)
  {
    var s := pat + t;
    assert pat <= s && s[|pat|..] == t;
  }

  /** A text that does not start with the pattern: its first character, then the rest replaced. */
  lemma {:induction false} ReplaceOffPattern(c: char, t: string, pat: string, rep: string)
    requires |pat| > 0 && pat[0] != c
    ensures Replace([c] + t, pat, rep) == [c] + Replace(t, pat, rep)
  {
    var s := [c] + t;
    assert s[0] == c && s[1..] == t;
    assert !(pat <= s);
  }

  /** With underscores in the key the escaping is not injective, so the round trip fails:
    * `"_ "` and `" _"` share the safe key `"____"`, which reads back as `" _"`. */
  lemma {:induction false} SafeKeyCollision()
    ensures ToSafeKey("_ ") == "____" && ToSafeKey(" _") == "____"
    ensures FromSafeKey("____") == " _" && FromSafeKey(ToSafeKey("_ ")) != "_ "
  {
    ReplaceAtPattern(" ", "", "___");
    ReplaceOffPattern('_', "", " ", "___");
    assert ToSafeKey(" ") == "___" && ToSafeKey("_") == "_";
    ReplaceOffPattern('_', " ", " ", "___");
    assert "_ " == ['_'] + " ";
    ReplaceAtPattern(" ", "_", "___");
    assert !("___" <= "_") && "_"[1..] == "";
    assert FromSafeKey("_") == "_";
    ReplaceAtPattern("___", "_", " ");
    assert "____" == "___" + "_";
  }

  // ---------------------------------------------------------------- Version strings

  /** `String.Split(sep)`: the pieces between separators, empty pieces included. */
  function Split(s: string, sep: char): (pieces: seq<string>)
    ensures |pieces| >= 1
    ensures forall i :: 0 <= i < |pieces| ==> sep !in pieces[i]
    decreases |s|
  {
    if |s| == 0 then [""]
    else
      var rest := Split(s[1..], sep);
      if s[0] == sep then [""] + rest
      else [[s[0]] + rest[0]] + rest[1..]
  }

  /** The pieces written out with `sep` between consecutive ones. */
  function Join(pieces: seq<string>, sep: char): string
    requires |pieces| >= 1
    decreases |pieces|
  {
    if |pieces| == 1 then pieces[0] else pieces[0] + [sep] + Join(pieces[1..], sep)
  }

  /** Joining the pieces of a split gives the text back. */
  lemma {:induction false} JoinSplit(s: string, sep: char)
    ensures Join(Split(s, sep), sep) == s
    decreases |s|
  {
    if |s| > 0 {
      var rest := Split(s[1..], sep);
      JoinSplit(s[1..], sep);
      if s[0] == sep {
        var p := [""] + rest;
        assert p[1..] == rest;
        assert Join(p, sep) == "" + [sep] + Join(rest, sep);
      } else {
        var p := [[s[0]] + rest[0]] + rest[1..];
        if |rest| == 1 {
          assert Join(p, sep) == [s[0]] + rest[0];
        } else {
          assert p[1..] == rest[1..];
          assert Join(rest, sep) == rest[0] + [sep] + Join(rest[1..], sep);
          assert Join(p, sep) == [s[0]] + rest[0] + [sep] + Join(rest[1..], sep);
        }
      }
      assert s == [s[0]] + s[1..];
    }
  }

  /** A leading text without separators becomes the front of the first piece. */
  lemma {:induction false} SplitPrefix(p: string, t: string, sep: char)
    requires sep !in p
    ensures Split(p + t, sep) == [p + Split(t, sep)[0]] + Split(t, sep)[1..]
    decreases |p|
  {
    if |p| > 0 {
      var q := p + t;
      assert q[0] == p[0] && q[1..] == p[1..] + t;
      SplitPrefix(p[1..], t, sep);
      assert [p[0]] + (p[1..] + Split(t, sep)[0]) == p + Split(t, sep)[0];
    } else {
      assert p + t == t;
      var r := Split(t, sep);
      assert p + r[0] == r[0];
      assert r == [r[0]] + r[1..];
    }
  }

  /** Splitting a join of separator-free pieces gives the pieces back. */
  lemma {:induction false} SplitJoin(pieces: seq<string>, sep: char)
    requires |pieces| >= 1
    requires forall i :: 0 <= i < |pieces| ==> sep !in pieces[i]
    ensures Split(Join(pieces, sep), sep) == pieces
    decreases |pieces|
  {
    if |pieces| == 1 {
      SplitPrefix(pieces[0], "", sep);
      assert pieces[0] + "" == pieces[0];
    } else {
      var rest := pieces[1..];
      var j := Join(rest, sep);
      SplitJoin(rest, sep);
      var t := [sep] + j;
      assert t[0] == sep && t[1..] == j;
      assert Split(t, sep) == [""] + rest;
      assert pieces[0] + [sep] + j == pieces[0] + t;
      SplitPrefix(pieces[0], t, sep);
      assert pieces[0] + "" == pieces[0];
    }
  }

  /** The sanitising of `Load`: a string of more than two `.`-separated components (the old
    * `X.X.X.X` format) is cut to its first two; any other string is kept. */
  function SanitizeVersion(versionStr: string): string
  {
    var pieces := Split(versionStr, '.');
    if |pieces| > 2 then pieces[0] + "." + pieces[1] else versionStr
  }

  /** What the sanitising does: a string of more than two components becomes a prefix of itself
    * made of exactly its first two components; any other string is unchanged. */
  lemma {:induction false} SanitizeVersionMeaning(versionStr: string)
    ensures var pieces := Split(versionStr, '.'); var r := SanitizeVersion(versionStr);
      && (|pieces| > 2 ==> r <= versionStr && Split(r, '.') == pieces[..2])
      && (|pieces| <= 2 ==> r == versionStr)
  {
    var pieces := Split(versionStr, '.');
    if |pieces| > 2 {
      var r := SanitizeVersion(versionStr);
      JoinSplit(versionStr, '.');
      var rest := Join(pieces[2..], '.');
      assert pieces[1..][1..] == pieces[2..];
      assert Join(pieces[1..], '.') == pieces[1] + "." + rest;
      assert versionStr == r + ("." + rest);
      SplitJoin(pieces[..2], '.');
      assert Join(pieces[..2], '.') == r;
    }
  }

  /** Sanitising an already sanitised string changes nothing. */
  lemma {:induction false} SanitizeVersionIdempotent(versionStr: string)
    ensures SanitizeVersion(SanitizeVersion(versionStr)) == SanitizeVersion(versionStr)
  {
    SanitizeVersionMeaning(versionStr);
  }

  // ---------------------------------------------------------------- System.Version

  /** A `System.Version`: `build` and `revision` are -1 when the version string leaves them out. */
  datatype Version = Version(major: int, minor: int, build: int, revision: int)

  /** `a <= b` on `System.Version`: components compared in order. */
  predicate VersionAtMost(a: Version, b: Version)
  {
    if a.major != b.major then a.major < b.major
    else if a.minor != b.minor then a.minor < b.minor
    else if a.build != b.build then a.build < b.build
    else a.revision <= b.revision
  }

  /** `new Version(1, 2)`, the newest unsupported save version. */
  const UnsupportedVersion: Version := Version(1, 2, -1, -1)

  /** A C# `int`. */
  newtype Int32 = x: int | -0x8000_0000 <= x < 0x8000_0000

  /** `int.MaxValue`. */
  const IntMaxValue: int := 0x7fff_ffff

  /** `Lib.ConfigValue(node, name, default)`: the stored value when there is one, else the default. */
  function ConfigValue<T>(stored: Option<T>, default: T): (r: T)
    ensures stored.Some? ==> r == stored.value
    ensures stored.None? ==> r == default
  {
    if stored.Some? then stored.value else default
  }

  /** The unique id `Load` leaves as the code is written: the `if` on the version, whose body
    * was a log call that is now commented out, guards the assignment instead. */
  function LoadedUidAsWritten(previousUid: Int32, version: Version, storedUid: Option<Int32>, randomUid: Int32): Int32
  {
    if VersionAtMost(version, UnsupportedVersion) then ConfigValue(storedUid, randomUid) else previousUid
  }

  /** As written, loading any save newer than 1.2 keeps the id of the previous game. */
  lemma {:induction false} LoadAsWrittenKeepsUid(previousUid: Int32, version: Version, storedUid: Option<Int32>, randomUid: Int32)
    requires !VersionAtMost(version, UnsupportedVersion)
    ensures LoadedUidAsWritten(previousUid, version, storedUid, randomUid) == previousUid
  {
  }

  /** A concrete case: a 1.3 save whose stored id is 7, loaded after a game whose id was 5,
    * leaves the id at 5, so a later `OnLoad` cannot tell the two games apart. */
  lemma {:induction false} LoadAsWrittenStaleUid()
    ensures !VersionAtMost(Version(1, 3, -1, -1), UnsupportedVersion)
    ensures LoadedUidAsWritten(5, Version(1, 3, -1, -1), Some(7), 0) == 5
  {
  }

  // ---------------------------------------------------------------- The vessel dictionary

  /** A `ProtoVessel` of `HighLogic.CurrentGame.flightState`: its id and the flight ids of its parts. */
  datatype ProtoVesselInfo = ProtoVesselInfo(vesselId: Guid, partIds: seq<nat>)

  /** The ids of the proto-vessels that have a non-empty GUID (flags are saved with an empty one). */
  function PersistedIds(pvs: seq<ProtoVesselInfo>): set<Guid>
  {
    set i | 0 <= i < |pvs| && pvs[i].vesselId != EmptyGuid :: pvs[i].vesselId
  }

  /** No two proto-vessels with a non-empty GUID share it (`vessels.Add` throws otherwise). */
  predicate UniqueIds(pvs: seq<ProtoVesselInfo>)
  {
    forall i, j :: 0 <= i < j < |pvs| && pvs[i].vesselId != EmptyGuid ==> pvs[i].vesselId != pvs[j].vesselId
  }

  /** The non-empty GUIDs in the order `Save` writes their nodes. */
  function SavedIds(pvs: seq<ProtoVesselInfo>): (ids: seq<Guid>)
    ensures |ids| <= |pvs|
    decreases |pvs|
  {
    if |pvs| == 0 then []
    else
      var last := pvs[|pvs| - 1];
      SavedIds(pvs[..|pvs| - 1]) + (if last.vesselId != EmptyGuid then [last.vesselId] else [])
  }

  /** One more proto-vessel adds its id to the persisted ids, unless the id is empty. */
  lemma {:induction false} PersistedIdsStep(pvs: seq<ProtoVesselInfo>, i: nat)
    requires i < |pvs|
    ensures PersistedIds(pvs[..i + 1])
      == PersistedIds(pvs[..i]) + (if pvs[i].vesselId != EmptyGuid then {pvs[i].vesselId} else {})
  {
    var a := pvs[..i];
    var b := pvs[..i + 1];
    assert forall j :: 0 <= j < i ==> b[j] == a[j];
    assert b[i] == pvs[i];
    forall g | g in PersistedIds(b)
      ensures g in PersistedIds(a) || (pvs[i].vesselId != EmptyGuid && g == pvs[i].vesselId)
    {
      var j :| 0 <= j < |b| && b[j].vesselId != EmptyGuid && b[j].vesselId == g;
      if j < i {
        assert a[j] == b[j];
      }
    }
    forall g | g in PersistedIds(a)
      ensures g in PersistedIds(b)
    {
      var j :| 0 <= j < |a| && a[j].vesselId != EmptyGuid && a[j].vesselId == g;
      assert b[j] == a[j];
    }
  }

  /** One more proto-vessel keeps the GUIDs unique exactly when it is empty or a new one. */
  lemma {:induction false} UniqueIdsStep(pvs: seq<ProtoVesselInfo>, i: nat)
    requires i < |pvs| && UniqueIds(pvs[..i])
    ensures UniqueIds(pvs[..i + 1])
      <==> pvs[i].vesselId == EmptyGuid || pvs[i].vesselId !in PersistedIds(pvs[..i])
  {
    var a := pvs[..i];
    var b := pvs[..i + 1];
    assert forall j :: 0 <= j < i ==> b[j] == a[j];
    assert b[i] == pvs[i];
    if pvs[i].vesselId != EmptyGuid && pvs[i].vesselId in PersistedIds(a) {
      var j :| 0 <= j < |a| && a[j].vesselId != EmptyGuid && a[j].vesselId == pvs[i].vesselId;
      assert b[j].vesselId == b[i].vesselId;
    }
  }

  /** The saved GUIDs are exactly the persisted ids. */
  lemma {:induction false} SavedIdsAreThePersisted(pvs: seq<ProtoVesselInfo>)
    ensures forall g :: g in SavedIds(pvs) <==> g in PersistedIds(pvs)
    decreases |pvs|
  {
    if |pvs| > 0 {
      var n := |pvs| - 1;
      SavedIdsAreThePersisted(pvs[..n]);
      PersistedIdsStep(pvs, n);
      assert pvs[..n + 1] == pvs;
    }
  }

  /** The state of a record created by `KerbalismData()` for a vessel met in flight. */
  const NewVesselState := VesselState(true, false, false, 0.0, 0, InitialEnvironment)

  /** The nodes `Save` writes: the version, the unique id and one `vessels2` child per GUID. */
  datatype SavedNode = SavedNode(version: string, uid: Int32, vesselNodes: seq<Guid>)

  /** A vessel record as `new VesselData(protoVessel, node)` leaves it: one part entry per
    * proto-part snapshot, and no `Vessel` yet. */
  predicate FreshFromSave(vd: VesselData, id: Guid, partIds: seq<nat>)
    reads vd
  {
    vd.vesselId == id && vd.State() == VesselState(false, false, false, 0.0, 0, InitialEnvironment)
    && vd.parts.Keys == IdSet(partIds) && vd.PartsConsistent() && !vd.hasVessel
    && vd.supplies == map[] && vd.scansatId == []
  }

  /** `vd` is the record built from a proto-vessel of `pvs` with GUID `id`. */
  predicate SavedRecord(vd: VesselData, id: Guid, pvs: seq<ProtoVesselInfo>)
    reads vd
  {
    exists i :: 0 <= i < |pvs| && pvs[i].vesselId == id && FreshFromSave(vd, id, pvs[i].partIds)
  }

  class Database {
    var version: Version
    var uid: Int32
    var vessels: map<Guid, VesselData>

    /** Each record is filed under its own vessel's id. */
    predicate Valid()
      reads this
    {
      forall g :: g in vessels ==> vessels[g].vesselId == g
    }

    constructor ()
      ensures vessels == map[] && Valid()
    {
      version := Version(0, 0, -1, -1);
      uid := 0;
      vessels := map[];
    }

    /** `Load(node)`. `storedVersion` and `storedUid` are the node's values, `currentVersion` the
      * running Kerbalism version, `parse` what `new Version(string)` gives (`None` when it throws),
      * `randomUid` the value of `Lib.RandomInt(int.MaxValue)` and `flightState` the game's
      * proto-vessels (`None` for a game being created). `ok` is false when the code throws: the
      * version does not parse (nothing changes) or two proto-vessels share a GUID (see
      * `LoadVessels`). The unique id is always read, as the code evidently intends. */
    method Load(storedVersion: Option<string>, currentVersion: string, parse: string -> Option<Version>,
                storedUid: Option<Int32>, randomUid: Int32, flightState: Option<seq<ProtoVesselInfo>>)
      returns (ok: bool)
      requires Valid()
      requires 0 <= randomUid as int < IntMaxValue
      requires flightState.Some? ==> forall i :: 0 <= i < |flightState.value| ==> Distinct(flightState.value[i].partIds)
      modifies this
      ensures Valid()
      ensures var parsed := parse(SanitizeVersion(ConfigValue(storedVersion, currentVersion)));
        && (parsed.None? ==> !ok && version == old(version) && uid == old(uid) && vessels == old(vessels))
        && (parsed.Some? ==>
              && version == parsed.value && uid == ConfigValue(storedUid, randomUid)
              && forall g :: g in vessels ==> fresh(vessels[g]))
        && (parsed.Some? && flightState.None? ==> ok && vessels == map[])
        && (parsed.Some? && flightState.Some? ==>
              && LoadedAs(vessels, ok, flightState.value)
              && forall g :: g in vessels ==> SavedRecord(vessels[g], g, flightState.value))
    {
      var versionStr := ConfigValue(storedVersion, currentVersion);
      versionStr := SanitizeVersion(versionStr);
      var parsed := parse(versionStr);
      if parsed.None? {
        return false;
      }
      version := parsed.value;
      uid := ConfigValue(storedUid, randomUid);
      vessels := map[];
      if flightState.None? {
        return true;
      }
      var m;
      m, ok := LoadVessels(flightState.value);
      vessels := m;
    }

    /** `Save(node)`, with the running Kerbalism version given. Each persisted proto-vessel gets
      * its record through `KerbalismData`, which creates the missing ones. `flightState` is `None`
      * when the game has no flight state yet: the version, the uid and an empty `vessels2` node are
      * written, and reading its `protoVessels` then throws (`!completed`). */
    method Save(currentVersion: string, flightState: Option<seq<ProtoVesselInfo>>) returns (node: SavedNode, completed: bool)
      requires Valid()
      requires flightState.Some? ==> forall i :: 0 <= i < |flightState.value| ==> Distinct(flightState.value[i].partIds)
      modifies this
      ensures completed <==> flightState.Some?
      ensures version == old(version) && uid == old(uid) && Valid()
      ensures flightState.None? ==> node == SavedNode(currentVersion, uid, []) && vessels == old(vessels)
      ensures flightState.Some? ==> node == SavedNode(currentVersion, uid, SavedIds(flightState.value))
      ensures flightState.Some? ==> vessels.Keys == old(vessels).Keys + PersistedIds(flightState.value)
      ensures forall g :: g in old(vessels) ==> vessels[g] == old(vessels)[g]
      ensures flightState.Some? ==>
        forall g :: g in vessels && g !in old(vessels) ==> fresh(vessels[g]) && SavedRecord(vessels[g], g, flightState.value)
    {
      if flightState.None? {
        return SavedNode(currentVersion, uid, []), false;
      }
      var pvs := flightState.value;
      var written: seq<Guid> := [];
      for i := 0 to |pvs|
        invariant written == SavedIds(pvs[..i])
        invariant version == old(version) && uid == old(uid) && Valid()
        invariant vessels.Keys == old(vessels).Keys + PersistedIds(pvs[..i])
        invariant forall g :: g in old(vessels) ==> vessels[g] == old(vessels)[g]
        invariant forall g :: g in vessels && g !in old(vessels) ==> fresh(vessels[g]) && SavedRecord(vessels[g], g, pvs)
      {
        var pv := pvs[i];
        PersistedIdsStep(pvs, i);
        assert pvs[..i + 1][..i] == pvs[..i];
        if pv.vesselId == EmptyGuid {
          continue;
        }
        var vd := ProtoVesselKerbalismData(pv.vesselId, pv.partIds);
        written := written + [pv.vesselId];
      }
      assert pvs[..|pvs|] == pvs;
      node := SavedNode(currentVersion, uid, written);
      completed := true;
    }

    /** `Vessel.KerbalismData()`: the vessel's record, created (as a vessel met in flight) when
      * there is none. */
    method VesselKerbalismData(id: Guid, partIds: seq<nat>) returns (vd: VesselData)
      requires Valid()
      requires id !in vessels ==> Distinct(partIds)
      modifies this
      ensures Valid() && id in vessels && vd == vessels[id]
      ensures version == old(version) && uid == old(uid)
      ensures id in old(vessels) ==> vessels == old(vessels)
      ensures id !in old(vessels) ==>
        && vessels == old(vessels)[id := vd] && fresh(vd)
        && vd.vesselId == id && vd.State() == VesselState(true, false, false, 0.0, 0, InitialEnvironment)
        && vd.parts.Keys == IdSet(partIds) && vd.PartsConsistent() && vd.hasVessel
        && vd.supplies == map[] && vd.scansatId == []
    {
      if id in vessels {
        return vessels[id];
      }
      vd := new VesselData.FromVessel(id, partIds);
      vessels := vessels[id := vd];
    }

    /** `ProtoVessel.KerbalismData()`: the proto-vessel's record, created when there is none. */
    method ProtoVesselKerbalismData(id: Guid, partIds: seq<nat>) returns (vd: VesselData)
      requires Valid()
      requires id !in vessels ==> Distinct(partIds)
      modifies this
      ensures Valid() && id in vessels && vd == vessels[id]
      ensures version == old(version) && uid == old(uid)
      ensures id in old(vessels) ==> vessels == old(vessels)
      ensures id !in old(vessels) ==> vessels == old(vessels)[id := vd] && fresh(vd) && FreshFromSave(vd, id, partIds)
    {
      if id in vessels {
        return vessels[id];
      }
      vd := new VesselData.FromProtoVessel(id, partIds);
      vessels := vessels[id := vd];
    }

    /** `KerbalismIsValid`: whether the vessel's record is simulated. A vessel without a record
      * gets a new one, which is not. */
    method KerbalismIsValid(id: Guid, partIds: seq<nat>) returns (valid: bool)
      requires Valid()
      requires id !in vessels ==> Distinct(partIds)
      modifies this
      ensures Valid() && id in vessels && valid == vessels[id].isSimulated
      ensures id in old(vessels) ==> vessels == old(vessels)
      ensures id !in old(vessels) ==> !valid && fresh(vessels[id]) && vessels == old(vessels)[id := vessels[id]]
                                      && vessels[id].parts.Keys == IdSet(partIds)
    {
      var vd := VesselKerbalismData(id, partIds);
      valid := vd.isSimulated;
    }
    /** `VesselData.OnDecoupleOrUndock` with its two lookups: both vessels get their records
      * from `KerbalismData()`, created when missing (the usual case for the new vessel of an
      * undock), then the record-level handler splits the parts. `oldParts` is the old vessel's part
      * map as the lookup hands it over. */
    method OnDecoupleOrUndock(oldId: Guid, oldPartIds: seq<nat>, newId: Guid, newPartIds: seq<nat>)
      returns (ghost oldParts: map<nat, PartData>)
      requires Valid()
      requires oldId !in vessels ==> Distinct(oldPartIds)
      requires newId !in vessels && newId != oldId ==> Distinct(newPartIds)
      modifies this, vessels.Values
      ensures Valid() && version == old(version) && uid == old(uid)
      ensures vessels.Keys == old(vessels).Keys + {oldId, newId}
      ensures forall g :: g in old(vessels) ==> vessels[g] == old(vessels)[g]
      ensures forall g :: g in old(vessels) && g != oldId && g != newId ==> unchanged(vessels[g])
      ensures forall g :: g in vessels && g !in old(vessels) ==>
        fresh(vessels[g]) && vessels[g].supplies == map[] && vessels[g].scansatId == [] && vessels[g].hasVessel
      ensures forall g :: g in old(vessels) && (g == oldId || g == newId) ==>
        vessels[g].supplies == old(vessels[g].supplies) && vessels[g].scansatId == old(vessels[g].scansatId)
        && vessels[g].hasVessel == old(vessels[g].hasVessel)
      ensures oldId in old(vessels) ==> oldParts == old(vessels[oldId].parts)
      ensures oldId !in old(vessels) ==> oldParts.Keys == IdSet(oldPartIds) && Consistent(oldParts)
      ensures oldId != newId ==>
        && vessels[newId].parts == PartsAmong(oldParts, newPartIds)
        && vessels[oldId].parts == PartsNotAmong(oldParts, newPartIds)
        && vessels[oldId].State() == ModifiedStep(if oldId in old(vessels) then old(vessels[oldId].State()) else NewVesselState)
        && vessels[newId].State() == ModifiedStep(if newId in old(vessels) then old(vessels[newId].State()) else NewVesselState)
      ensures oldId == newId ==>
        && vessels[oldId].parts == map[]
        && vessels[oldId].State() == ModifiedStep(ModifiedStep(if oldId in old(vessels) then old(vessels[oldId].State()) else NewVesselState))
      ensures Consistent(oldParts) ==> vessels[oldId].PartsConsistent() && vessels[newId].PartsConsistent()
    {
      var oldVD := VesselKerbalismData(oldId, oldPartIds);
      var newVD := VesselKerbalismData(newId, newPartIds);
      oldParts := oldVD.parts;
      KerbalismVessel.OnDecoupleOrUndock(oldVD, newVD, newPartIds);
    }

    /** `VesselData.OnPartCouple` with its two lookups: both vessels get their records from
      * `KerbalismData()`, created when missing, then the record-level handler adds the part or
      * merges the parts. `fromParts` and `toParts` are the part maps as the lookups hand them over. */
    method OnPartCouple(fromId: Guid, fromPartIds: seq<nat>, toId: Guid, toPartIds: seq<nat>, fromPartId: nat)
      returns (ok: bool, ghost fromParts: map<nat, PartData>, ghost toParts: map<nat, PartData>)
      requires Valid()
      requires fromId !in vessels ==> Distinct(fromPartIds)
      requires toId !in vessels && toId != fromId ==> Distinct(toPartIds)
      requires fromId in vessels ==> vessels[fromId].PartsConsistent()
      requires toId in vessels ==> vessels[toId].PartsConsistent()
      modifies this, vessels.Values
      ensures Valid() && version == old(version) && uid == old(uid)
      ensures vessels.Keys == old(vessels).Keys + {fromId, toId}
      ensures forall g :: g in old(vessels) ==> vessels[g] == old(vessels)[g]
      ensures forall g :: g in old(vessels) && g != fromId && g != toId ==> unchanged(vessels[g])
      ensures forall g :: g in vessels && g !in old(vessels) ==> fresh(vessels[g]) && vessels[g].hasVessel
      ensures forall g :: g in old(vessels) && (g == fromId || g == toId) ==> vessels[g].hasVessel == old(vessels[g].hasVessel)
      ensures fromId in old(vessels) ==> fromParts == old(vessels[fromId].parts)
      ensures fromId !in old(vessels) ==> fromParts.Keys == IdSet(fromPartIds) && Consistent(fromParts)
      ensures toId in old(vessels) ==> toParts == old(vessels[toId].parts)
      ensures toId !in old(vessels) && toId != fromId ==> toParts.Keys == IdSet(toPartIds) && Consistent(toParts)
      ensures toId == fromId ==> toParts == fromParts
      ensures fromId == toId ==>
        && ok
        && vessels[toId].State() == (if toId in old(vessels) then old(vessels[toId].State()) else NewVesselState)
        && (fromPartId in toParts ==> vessels[toId].parts == toParts)
        && (fromPartId !in toParts ==>
              && fromPartId in vessels[toId].parts && fresh(vessels[toId].parts[fromPartId])
              && vessels[toId].parts == toParts[fromPartId := vessels[toId].parts[fromPartId]])
      ensures fromId != toId ==> (ok <==> fromParts.Keys !! toParts.Keys)
      ensures fromId != toId ==>
        vessels[fromId].State() == (if fromId in old(vessels) then old(vessels[fromId].State()) else NewVesselState)
      ensures fromId != toId && ok ==>
        && vessels[toId].parts == toParts + fromParts && vessels[fromId].parts == map[]
        && vessels[toId].supplies == map[] && vessels[toId].scansatId == []
        && vessels[toId].State() == ModifiedStep(if toId in old(vessels) then old(vessels[toId].State()) else NewVesselState)
      ensures fromId != toId && !ok ==>
        && vessels[fromId].parts == fromParts
        && toParts.Keys <= vessels[toId].parts.Keys <= toParts.Keys + fromParts.Keys
        && vessels[toId].State() == (if toId in old(vessels) then old(vessels[toId].State()) else NewVesselState)
      ensures fromId in old(vessels) && fromId != toId ==>
        vessels[fromId].supplies == old(vessels[fromId].supplies) && vessels[fromId].scansatId == old(vessels[fromId].scansatId)
      ensures toId in old(vessels) && (fromId == toId || !ok) ==>
        vessels[toId].supplies == old(vessels[toId].supplies) && vessels[toId].scansatId == old(vessels[toId].scansatId)
      ensures forall g :: g in vessels && g !in old(vessels) ==> vessels[g].supplies == map[] && vessels[g].scansatId == []
      ensures vessels[fromId].PartsConsistent() && vessels[toId].PartsConsistent()
    {
      var fromVD := VesselKerbalismData(fromId, fromPartIds);
      var toVD := VesselKerbalismData(toId, toPartIds);
      fromParts, toParts := fromVD.parts, toVD.parts;
      ok := KerbalismVessel.OnPartCouple(fromVD, toVD, fromPartId);
    }

    /** `VesselData.OnPartWillDie` with its lookup: the part's vessel gets its record from
      * `KerbalismData()`, created when missing, and that record loses the part's entry. */
    method OnPartWillDie(id: Guid, partIds: seq<nat>, flightId: nat)
      requires Valid()
      requires id !in vessels ==> Distinct(partIds)
      modifies this, vessels.Values
      ensures Valid() && version == old(version) && uid == old(uid)
      ensures vessels.Keys == old(vessels).Keys + {id}
      ensures forall g :: g in old(vessels) ==> vessels[g] == old(vessels)[g]
      ensures forall g :: g in old(vessels) && g != id ==> unchanged(vessels[g])
      ensures id in old(vessels) ==>
        && vessels[id].parts == old(vessels[id].parts) - {flightId}
        && vessels[id].State() == ModifiedStep(old(vessels[id].State()))
        && vessels[id].supplies == old(vessels[id].supplies) && vessels[id].scansatId == old(vessels[id].scansatId)
        && vessels[id].hasVessel == old(vessels[id].hasVessel)
      ensures id !in old(vessels) ==>
        && fresh(vessels[id]) && vessels[id].parts.Keys == IdSet(partIds) - {flightId} && vessels[id].PartsConsistent()
        && vessels[id].State() == ModifiedStep(NewVesselState)
        && vessels[id].supplies == map[] && vessels[id].scansatId == [] && vessels[id].hasVessel
    {
      var vd := VesselKerbalismData(id, partIds);
      KerbalismVessel.OnPartWillDie(vd, flightId);
    }
  }

  /** What the loop of `Load` leaves: with unique GUIDs, one record per persisted id; at the
    * first repeated GUID, the records of the proto-vessels before it. */
  ghost predicate LoadedAs(m: map<Guid, VesselData>, ok: bool, pvs: seq<ProtoVesselInfo>)
  {
    && (ok <==> UniqueIds(pvs))
    && (ok ==> m.Keys == PersistedIds(pvs))
    && (!ok ==> exists d :: 0 <= d < |pvs| && UniqueIds(pvs[..d])
                  && m.Keys == PersistedIds(pvs[..d]) && pvs[d].vesselId in m.Keys)
  }

  /** The loop of `Load` over the proto-vessels: a new record for each non-empty GUID, added with
    * `Dictionary.Add`, which throws (`ok` false) on a GUID already present. */
  method LoadVessels(pvs: seq<ProtoVesselInfo>) returns (m: map<Guid, VesselData>, ok: bool)
    requires forall i :: 0 <= i < |pvs| ==> Distinct(pvs[i].partIds)
    ensures LoadedAs(m, ok, pvs)
    ensures forall g :: g in m ==> fresh(m[g]) && SavedRecord(m[g], g, pvs)
  {
    m := map[];
    for i := 0 to |pvs|
      invariant m.Keys == PersistedIds(pvs[..i]) && UniqueIds(pvs[..i])
      invariant forall g :: g in m ==> fresh(m[g]) && SavedRecord(m[g], g, pvs)
    {
      var pv := pvs[i];
      PersistedIdsStep(pvs, i);
      if pv.vesselId == EmptyGuid {
        UniqueIdsStep(pvs, i);
        continue;
      }
      if pv.vesselId in m {
        LoadStopped(m, pvs, i);
        return m, false;
      }
      UniqueIdsStep(pvs, i);
      var vd := new VesselData.FromProtoVessel(pv.vesselId, pv.partIds);
      m := m[pv.vesselId := vd];
    }
    LoadFinished(m, pvs);
    ok := true;
  }

  /** The loop of `Load` stopped at entry `i`, whose GUID is already filed: the records are those
    * of the entries before it, and the GUIDs are not unique. */
  lemma {:induction false} LoadStopped(m: map<Guid, VesselData>, pvs: seq<ProtoVesselInfo>, i: nat)
    requires i < |pvs| && UniqueIds(pvs[..i]) && m.Keys == PersistedIds(pvs[..i])
    requires pvs[i].vesselId != EmptyGuid && pvs[i].vesselId in m
    ensures LoadedAs(m, false, pvs)
  {
    UniqueIdsStep(pvs, i);
    assert pvs[..i + 1] + pvs[i + 1..] == pvs;
    NotUniqueExtends(pvs[..i + 1], pvs[i + 1..]);
  }

  /** The loop of `Load` run to the end: one record per persisted GUID, all unique. */
  lemma {:induction false} LoadFinished(m: map<Guid, VesselData>, pvs: seq<ProtoVesselInfo>)
    requires m.Keys == PersistedIds(pvs[..|pvs|]) && UniqueIds(pvs[..|pvs|])
    ensures LoadedAs(m, true, pvs)
  {
    assert pvs[..|pvs|] == pvs;
  }

  /** A duplicate among the first entries stays a duplicate however many entries follow. */
  lemma {:induction false} NotUniqueExtends(a: seq<ProtoVesselInfo>, b: seq<ProtoVesselInfo>)
    requires !UniqueIds(a)
    ensures !UniqueIds(a + b)
  {
    var i, j :| 0 <= i < j < |a| && a[i].vesselId != EmptyGuid && a[i].vesselId == a[j].vesselId;
    assert (a + b)[i] == a[i] && (a + b)[j] == a[j];
  }
}
