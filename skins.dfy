/**
  `SkinManager` (src/skin_manager.py): the table of board skins, rebuilt from the
  skins folder, and the folder name a new skin is saved under.

  The folder is modelled by `disk`, the entries `os.listdir` reports in the order
  it reports them, each with what its `config.json` holds.  A Python dict keeps
  insertion order, which `get_skin_names` shows; the model keeps that order in
  `order` beside the `skins` map.
*/
module Skins {
  import opened Wrappers

  // ---------------------------------------------------------------------
  // Folder names
  // ---------------------------------------------------------------------

  /** `str.isalnum` for one character, on the Latin-1 range: ASCII letters and
      digits, the Latin-1 letters, and the superscript digits and fractions. */
  predicate IsAlnum(c: char) {
    var n := c as int;
    ('0' <= c <= '9') || ('A' <= c <= 'Z') || ('a' <= c <= 'z') ||
    n == 0xAA || n == 0xB2 || n == 0xB3 || n == 0xB5 || n == 0xB9 || n == 0xBA ||
    (0xBC <= n <= 0xBE) || (0xC0 <= n <= 0xFF && n != 0xD7 && n != 0xF7)
  }

  /** On ASCII, the alphanumerics are exactly the letters and digits, and
      nothing above Latin-1 counts. */
  lemma AlnumOnAscii(c: char)
    ensures c as int < 0x80 ==> (IsAlnum(c) <==> ('0' <= c <= '9') || ('A' <= c <= 'Z') || ('a' <= c <= 'z'))
    ensures IsAlnum(c) ==> c as int <= 0xFF
  {
  }

  /** `str.isspace` for one character: the characters `str.strip()` removes.
      */
  predicate IsWhitespace(c: char) {
    var n := c as int;
    (0x09 <= n <= 0x0D) || (0x1C <= n <= 0x20) || n == 0x85 || n == 0xA0 || n == 0x1680 ||
    (0x2000 <= n <= 0x200A) || n == 0x2028 || n == 0x2029 || n == 0x202F || n == 0x205F || n == 0x3000
  }

  /** The characters a skin folder name may keep. */
  predicate FolderChar(c: char) {
    IsAlnum(c) || c == ' ' || c == '_'
  }

  /** The characters of `s` a folder name may keep, in order. */
  function KeepFolderChars(s: string): (r: string)
    ensures forall i :: 0 <= i < |r| ==> FolderChar(r[i])
    ensures forall i :: 0 <= i < |s| && FolderChar(s[i]) ==> s[i] in r
    ensures |r| <= |s|
  {
    if s == [] then []
    else (if FolderChar(s[0]) then [s[0]] else []) + KeepFolderChars(s[1..])
  }

  /** The filter works character by character: on one character it keeps it
      exactly when it is allowed, ... */
  lemma KeepFolderCharsOne(c: char)
    ensures KeepFolderChars([c]) == if FolderChar(c) then [c] else []
  {
    assert [c][1..] == [];
  }

  /** ... and on a concatenation it filters each part. */
  lemma {:induction false} KeepFolderCharsConcat(a: string, b: string)
    ensures KeepFolderChars(a + b) == KeepFolderChars(a) + KeepFolderChars(b)
  {
    if a == [] {
      assert a + b == b;
    } else {
      assert (a + b)[0] == a[0];
      assert (a + b)[1..] == a[1..] + b;
      KeepFolderCharsConcat(a[1..], b);
    }
  }

  /** `lstrip`: drops the whitespace prefix (see `StripLeadingDropsWhitespace`). */
  function StripLeading(s: string): (r: string)
    ensures r == [] || !IsWhitespace(r[0])
    ensures |r| <= |s| && r == s[|s| - |r|..]
  {
    if s != [] && IsWhitespace(s[0]) then StripLeading(s[1..]) else s
  }

  /** `rstrip`: drops the whitespace suffix (see `StripTrailingDropsWhitespace`). */
  function StripTrailing(s: string): (r: string)
    ensures r == [] || !IsWhitespace(r[|r| - 1])
    ensures |r| <= |s| && r == s[..|r|]
  {
    if s != [] && IsWhitespace(s[|s| - 1]) then StripTrailing(s[..|s| - 1]) else s
  }

  /** What `lstrip` drops is whitespace. */
  lemma {:induction false} StripLeadingDropsWhitespace(s: string, i: nat)
    requires i < |s| - |StripLeading(s)|
    ensures IsWhitespace(s[i])
  {
    if i > 0 {
      StripLeadingDropsWhitespace(s[1..], i - 1);
      assert s[1..][i - 1] == s[i];
    }
  }

  /** What `rstrip` drops is whitespace. */
  lemma {:induction false} StripTrailingDropsWhitespace(s: string, i: nat)
    requires |StripTrailing(s)| <= i < |s|
    ensures IsWhitespace(s[i])
  {
    if i < |s| - 1 {
      StripTrailingDropsWhitespace(s[..|s| - 1], i);
      assert s[..|s| - 1][i] == s[i];
    }
  }

  /** Where the text `str.strip()` keeps begins. */
  function StripStart(s: string): (i: nat)
    ensures i <= |s|
  {
    |s| - |StripLeading(s)|
  }

  /** `str.strip()`: the slice of `s` from `StripStart(s)`, with no whitespace
      at either end; everything it drops is whitespace (`StripRemovesWhitespace`). */
  function Strip(s: string): (r: string)
    ensures r == [] || (!IsWhitespace(r[0]) && !IsWhitespace(r[|r| - 1]))
    ensures StripStart(s) + |r| <= |s| && r == s[StripStart(s)..StripStart(s) + |r|]
  {
    StripTrailing(StripLeading(s))
  }

  /** Everything outside `Strip(s)` is whitespace. */
  lemma StripRemovesWhitespace(s: string)
    ensures forall k :: 0 <= k < StripStart(s) ==> IsWhitespace(s[k])
    ensures forall k :: StripStart(s) + |Strip(s)| <= k < |s| ==> IsWhitespace(s[k])
  {
    forall k | 0 <= k < StripStart(s) ensures IsWhitespace(s[k]) {
      StripLeadingDropsWhitespace(s, k);
    }
    forall k | StripStart(s) + |Strip(s)| <= k < |s| ensures IsWhitespace(s[k]) {
      StripSuffixIsWhitespace(s, k);
    }
  }

  lemma StripSuffixIsWhitespace(s: string, k: nat)
    requires StripStart(s) + |Strip(s)| <= k < |s|
    ensures IsWhitespace(s[k])
  {
    var left := StripLeading(s);
    var i := StripStart(s);
    assert Strip(s) == StripTrailing(left);
    StripTrailingDropsWhitespace(left, k - i);
    assert s[k] == left[k - i];
  }

  /** Stripping a text of folder characters leaves folder characters. */
  lemma StripKeepsFolderChars(s: string)
    requires forall i :: 0 <= i < |s| ==> FolderChar(s[i])
    ensures forall i :: 0 <= i < |Strip(s)| ==> FolderChar(Strip(s)[i])
  {
    var r := Strip(s);
    assert forall k :: 0 <= k < |r| ==> r[k] == s[StripStart(s) + k];
  }

  lemma SpaceIsWhitespace()
    ensures IsWhitespace(' ')
  {
  }

  /** The folder used when a name keeps no character. */
  const FallbackFolder: string := "CustomSkin"

  lemma FallbackIsClean()
    ensures FallbackFolder != [] && FallbackFolder[0] != ' ' && FallbackFolder[|FallbackFolder| - 1] != ' '
    ensures forall i :: 0 <= i < |FallbackFolder| ==> FolderChar(FallbackFolder[i])
  {
  }

  /** The folder a skin called `name` is saved in: its alphanumerics, spaces
      and underscores, stripped, or "CustomSkin" when nothing is left. */
  function FolderName(name: string): (r: string)
    ensures Strip(KeepFolderChars(name)) == [] ==> r == FallbackFolder
    ensures Strip(KeepFolderChars(name)) != [] ==> r == Strip(KeepFolderChars(name))
    ensures r != []
    ensures forall i :: 0 <= i < |r| ==> FolderChar(r[i])
    ensures r[0] != ' ' && r[|r| - 1] != ' '
  {
    var kept := KeepFolderChars(name);
    var folder := Strip(kept);
    StripKeepsFolderChars(kept);
    SpaceIsWhitespace();
    FallbackIsClean();
    if folder == [] then FallbackFolder else folder
  }

  /** Of the characters a folder name keeps, only the space is whitespace, so
      stripping a filtered name removes nothing but spaces. */
  lemma OnlySpaceIsStripped(c: char)
    requires FolderChar(c) && IsWhitespace(c)
    ensures c == ' '
  {
  }

  lemma {:induction false} KeepAllFolderChars(s: string)
    requires forall i :: 0 <= i < |s| ==> FolderChar(s[i])
    ensures KeepFolderChars(s) == s
  {
    if s != [] {
      KeepAllFolderChars(s[1..]);
      assert [s[0]] + s[1..] == s;
    }
  }

  lemma StripTrimmed(s: string)
    requires s == [] || (!IsWhitespace(s[0]) && !IsWhitespace(s[|s| - 1]))
    ensures Strip(s) == s
  {
  }

  /** Sanitising a folder name that is already sanitised changes nothing. */
  lemma {:induction false} FolderNameIdempotent(name: string)
    ensures FolderName(FolderName(name)) == FolderName(name)
  {
    var r := FolderName(name);
    KeepAllFolderChars(r);
    assert KeepFolderChars(r) == r;
    FolderNameTrimmed(name);
    StripTrimmed(r);
    assert Strip(KeepFolderChars(r)) == r;
  }

  /** A sanitised name carries no whitespace at either end. */
  lemma FolderNameTrimmed(name: string)
    ensures !IsWhitespace(FolderName(name)[0]) && !IsWhitespace(FolderName(name)[|FolderName(name)| - 1])
  {
    var folder := Strip(KeepFolderChars(name));
    if folder == [] {
      assert FolderName(name) == "CustomSkin";
    }
  }

  // ---------------------------------------------------------------------
  // The skin table
  // ---------------------------------------------------------------------

  /** One skin: display name, light and dark square colours, image folder. */
  datatype Skin = Skin(name: string, light: seq<int>, dark: seq<int>, path: string)

  /** The keys of a config.json that `reload_skins` reads; None when absent. */
  datatype SkinConfig = SkinConfig(name: Option<string>, lightColor: Option<seq<int>>, darkColor: Option<seq<int>>)

  /** A folder's config.json: missing, failing to load (the error is printed
      and the folder skipped), or read. */
  datatype ConfigFile = NoConfig | Unreadable | Parsed(config: SkinConfig)

  /** One entry of the skins folder. */
  datatype DirEntry = DirEntry(item: string, isDir: bool, configFile: ConfigFile)

  const DefaultId: string := "default"

  /** An RGB colour: three components in 0..255. */
  predicate IsRgb(c: seq<int>) {
    |c| == 3 && forall i :: 0 <= i < 3 ==> 0 <= c[i] <= 255
  }

  /** The built-in wooden skin, always present: two RGB colours, the light
      squares brighter than the dark ones in every component. */
  function DefaultSkin(): (s: Skin)
    ensures IsRgb(s.light) && IsRgb(s.dark)
    ensures forall i :: 0 <= i < 3 ==> s.light[i] > s.dark[i]
  {
    Skin("Padr\U{E3}o (Madeira)", [240, 217, 181], [181, 136, 99], "assets/images/pieces")
  }

  /** `os.path.join` with the POSIX separator. */
  function JoinPath(folder: string, item: string): string {
    folder + "/" + item
  }

  /** A folder entry `reload_skins` turns into a skin. */
  predicate Loadable(e: DirEntry) {
    e.isDir && e.configFile.Parsed?
  }

  /** The skin of folder `item`: missing keys fall back to the folder name,
      white (255, 255, 255) and black (0, 0, 0). */
  function LoadedSkin(baseFolder: string, item: string, c: SkinConfig): (s: Skin)
    ensures s.name == if c.name.Some? then c.name.value else item
    ensures s.light == if c.lightColor.Some? then c.lightColor.value else [255, 255, 255]
    ensures s.dark == if c.darkColor.Some? then c.darkColor.value else [0, 0, 0]
    ensures s.path == JoinPath(baseFolder, item)
  {
    Skin(c.name.GetOr(item), c.lightColor.GetOr([255, 255, 255]), c.darkColor.GetOr([0, 0, 0]), JoinPath(baseFolder, item))
  }

  /** The skins dictionary: its keys in insertion order, and its entries. */
  datatype Table = Table(order: seq<string>, skins: map<string, Skin>)

  predicate Distinct(s: seq<string>) {
    forall i, j :: 0 <= i < j < |s| ==> s[i] != s[j]
  }

  /** The order lists every key exactly once. */
  ghost predicate WellFormed(t: Table) {
    Distinct(t.order) && (forall k :: k in t.skins <==> k in t.order)
  }

  /** Folder names as `os.listdir` reports them: each at most once. */
  predicate DistinctItems(disk: seq<DirEntry>) {
    forall i, j :: 0 <= i < j < |disk| ==> disk[i].item != disk[j].item
  }

  /** The table before the folder is scanned: only the default skin. */
  function InitialTable(): Table {
    Table([DefaultId], map[DefaultId := DefaultSkin()])
  }

  /** One step of `reload_skins`: a loadable folder (re)defines its skin; a
      new key goes to the end of the order, an existing one keeps its place. */
  function AddEntry(t: Table, baseFolder: string, e: DirEntry): (r: Table)
    ensures !Loadable(e) ==> r == t
    ensures Loadable(e) ==> e.item in r.skins && r.skins[e.item] == LoadedSkin(baseFolder, e.item, e.configFile.config)
  {
    if Loadable(e) then
      Table(if e.item in t.skins then t.order else t.order + [e.item],
            t.skins[e.item := LoadedSkin(baseFolder, e.item, e.configFile.config)])
    else t
  }

  /** The order only grows, by the new key at the end. */
  lemma AddEntryAppends(t: Table, baseFolder: string, e: DirEntry)
    ensures var r := AddEntry(t, baseFolder, e);
            t.order <= r.order && |r.order| <= |t.order| + 1
  {
  }

  /** Every other key keeps its presence and its skin. */
  lemma AddEntryKeepsOthers(t: Table, baseFolder: string, e: DirEntry, k: string)
    requires k != e.item
    ensures k in AddEntry(t, baseFolder, e).skins <==> k in t.skins
    ensures k in t.skins ==> AddEntry(t, baseFolder, e).skins[k] == t.skins[k]
  {
  }

  /** The table after scanning `disk` in order. */
  function Scan(baseFolder: string, disk: seq<DirEntry>): (r: Table)
    ensures DefaultId in r.skins
  {
    if disk == [] then InitialTable()
    else AddEntry(Scan(baseFolder, disk[..|disk| - 1]), baseFolder, disk[|disk| - 1])
  }

  /** After a scan the default entry exists, comes first, and every key is
      listed exactly once. */
  lemma {:induction false} ScanWellFormed(baseFolder: string, disk: seq<DirEntry>)
    ensures WellFormed(Scan(baseFolder, disk))
    ensures DefaultId in Scan(baseFolder, disk).skins
    ensures Scan(baseFolder, disk).order != [] && Scan(baseFolder, disk).order[0] == DefaultId
  {
    if disk != [] {
      ScanWellFormed(baseFolder, disk[..|disk| - 1]);
    }
  }

  /** The keys of the table: "default" and the loadable folders, nothing else. */
  lemma {:induction false} ScanKeys(baseFolder: string, disk: seq<DirEntry>, k: string)
    ensures k in Scan(baseFolder, disk).skins <==>
              k == DefaultId || exists i :: 0 <= i < |disk| && Loadable(disk[i]) && disk[i].item == k
  {
    if disk != [] {
      var init := disk[..|disk| - 1];
      ScanKeys(baseFolder, init, k);
      if exists i :: 0 <= i < |init| && Loadable(init[i]) && init[i].item == k {
        var i :| 0 <= i < |init| && Loadable(init[i]) && init[i].item == k;
        assert disk[i] == init[i];
      }
      if exists i :: 0 <= i < |disk| && Loadable(disk[i]) && disk[i].item == k {
        var i :| 0 <= i < |disk| && Loadable(disk[i]) && disk[i].item == k;
        if i < |init| {
          assert init[i] == disk[i];
        }
      }
    }
  }

  /** Unless a loadable folder is itself called "default", the default entry
      keeps the built-in wooden colours. */
  lemma {:induction false} ScanKeepsDefault(baseFolder: string, disk: seq<DirEntry>)
    requires forall i :: 0 <= i < |disk| && Loadable(disk[i]) ==> disk[i].item != DefaultId
    ensures DefaultId in Scan(baseFolder, disk).skins
    ensures Scan(baseFolder, disk).skins[DefaultId] == DefaultSkin()
  {
    if disk != [] {
      var init := disk[..|disk| - 1];
      forall i | 0 <= i < |init| && Loadable(init[i]) ensures init[i].item != DefaultId {
        assert init[i] == disk[i];
      }
      ScanKeepsDefault(baseFolder, init);
    }
  }

  /** With distinct folder names, every loadable folder's skin is in the table
      under the folder's name, built from its config with the defaults. */
  lemma {:induction false} ScanFindsFolder(baseFolder: string, disk: seq<DirEntry>, i: nat)
    requires DistinctItems(disk)
    requires i < |disk| && Loadable(disk[i])
    ensures disk[i].item in Scan(baseFolder, disk).skins
    ensures Scan(baseFolder, disk).skins[disk[i].item] ==
              LoadedSkin(baseFolder, disk[i].item, disk[i].configFile.config)
  {
    var n := |disk| - 1;
    var init := disk[..n];
    if i < n {
      assert init[i] == disk[i];
      assert DistinctItems(init) by {
        forall a, b | 0 <= a < b < |init| ensures init[a].item != init[b].item {
          assert init[a] == disk[a] && init[b] == disk[b];
        }
      }
      ScanFindsFolder(baseFolder, init, i);
    }
  }

  /** Insertion order: scanning more entries only appends keys, so every key
      keeps the place it got when it was first added. */
  lemma {:induction false} ScanOrderPrefix(baseFolder: string, disk: seq<DirEntry>, n: nat)
    requires n <= |disk|
    ensures Scan(baseFolder, disk[..n]).order <= Scan(baseFolder, disk).order
  {
    if n < |disk| {
      var init := disk[..|disk| - 1];
      assert init[..n] == disk[..n];
      ScanOrderPrefix(baseFolder, init, n);
      AddEntryAppends(Scan(baseFolder, init), baseFolder, disk[|disk| - 1]);
    } else {
      assert disk[..n] == disk;
    }
  }

  lemma {:induction false} DistinctCardinality(s: seq<string>)
    requires Distinct(s)
    ensures |set k | k in s| == |s|
  {
    if s != [] {
      var init := s[..|s| - 1];
      assert Distinct(init);
      DistinctCardinality(init);
      assert (set k | k in s) == (set k | k in init) + {s[|s| - 1]};
    }
  }

  /** The (id, display name) pairs of the keys in `order`. */
  function NamePairs(order: seq<string>, skins: map<string, Skin>): (r: seq<(string, string)>)
    requires forall i :: 0 <= i < |order| ==> order[i] in skins
    ensures |r| == |order|
    ensures forall i :: 0 <= i < |r| ==> r[i] == (order[i], skins[order[i]].name)
  {
    if order == [] then [] else [(order[0], skins[order[0]].name)] + NamePairs(order[1..], skins)
  }

  /** The pairs of a well-formed table: one per key, ids distinct, in order. */
  lemma NamePairsCover(order: seq<string>, skins: map<string, Skin>)
    requires Distinct(order) && forall k :: k in skins <==> k in order
    ensures forall i :: 0 <= i < |order| ==> order[i] in skins
    ensures var names := NamePairs(order, skins);
            && |names| == |skins| == |order|
            && (forall i :: 0 <= i < |names| ==> names[i].0 == order[i] && order[i] in skins && names[i].1 == skins[order[i]].name)
            && (forall k :: k in skins ==> exists i :: 0 <= i < |names| && names[i].0 == k)
            && (forall i, j :: 0 <= i < j < |names| ==> names[i].0 != names[j].0)
  {
    DistinctCardinality(order);
    assert skins.Keys == set k | k in order;
    var r := NamePairs(order, skins);
    forall k | k in skins ensures exists i :: 0 <= i < |order| && r[i].0 == k {
      var i :| 0 <= i < |order| && order[i] == k;
      assert r[i].0 == k;
    }
  }

  /** The entries a folder gets when a skin's config.json is written to it:
      existing folders are overwritten in place, a new one is listed last. */
  function WriteSkinFolder(disk: seq<DirEntry>, folder: string, c: SkinConfig): (r: seq<DirEntry>)
    ensures exists i :: 0 <= i < |r| && r[i] == DirEntry(folder, true, Parsed(c))
    ensures forall i :: 0 <= i < |r| ==> r[i].item == folder || r[i] in disk
    ensures forall e :: e in disk && e.item != folder ==> e in r
  {
    var written := DirEntry(folder, true, Parsed(c));
    if disk == [] then
      assert [written][0] == written;
      [written]
    else if disk[0].item == folder then
      assert ([written] + disk[1..])[0] == written;
      assert forall i :: 1 <= i < |disk| ==> ([written] + disk[1..])[i] == disk[i];
      [written] + disk[1..]
    else
      var rest := WriteSkinFolder(disk[1..], folder, c);
      var k :| 0 <= k < |rest| && rest[k] == DirEntry(folder, true, Parsed(c));
      assert ([disk[0]] + rest)[k + 1] == rest[k];
      [disk[0]] + rest
  }

  lemma {:induction false} WriteKeepsDistinct(disk: seq<DirEntry>, folder: string, c: SkinConfig)
    requires DistinctItems(disk)
    ensures DistinctItems(WriteSkinFolder(disk, folder, c))
  {
    if disk != [] && disk[0].item != folder {
      assert DistinctItems(disk[1..]);
      WriteKeepsDistinct(disk[1..], folder, c);
      var rest := WriteSkinFolder(disk[1..], folder, c);
      forall j | 0 <= j < |rest| ensures rest[j].item != disk[0].item {
        if rest[j].item != folder {
          var m :| 0 <= m < |disk[1..]| && disk[1..][m] == rest[j];
        }
      }
    }
  }

  /** After a skin's config.json is written, the rescan finds that skin under
      the folder's name, with the name and colours written. */
  lemma WrittenSkinIsFound(baseFolder: string, disk: seq<DirEntry>, folder: string, c: SkinConfig)
    requires DistinctItems(disk)
    ensures DistinctItems(WriteSkinFolder(disk, folder, c))
    ensures var t := Scan(baseFolder, WriteSkinFolder(disk, folder, c));
            folder in t.skins && t.skins[folder] == LoadedSkin(baseFolder, folder, c)
  {
    WriteKeepsDistinct(disk, folder, c);
    var d := WriteSkinFolder(disk, folder, c);
    var k :| 0 <= k < |d| && d[k] == DirEntry(folder, true, Parsed(c));
    ScanFindsFolder(baseFolder, d, k);
  }

  /** What `save_new_skin` reports: the new skin's id, or the failure of
      `os.makedirs` because a plain file already has the folder's name. */
  datatype SaveOutcome = SavedAs(id: string) | NotADirectory

  class SkinManager {
    const baseFolder: string
    var disk: seq<DirEntry>
    var order: seq<string>
    var skins: map<string, Skin>

    /** The table is the scan of the folder as it stands. */
    ghost predicate Valid()
      reads this
    {
      && DistinctItems(disk)
      && Table(order, skins) == Scan(baseFolder, disk)
      && WellFormed(Table(order, skins))
      && DefaultId in skins && order != [] && order[0] == DefaultId
    }

    constructor (baseFolder: string, disk: seq<DirEntry>)
      requires DistinctItems(disk)
      ensures Valid() && this.baseFolder == baseFolder && this.disk == disk
    {
      this.baseFolder := baseFolder;
      this.disk := disk;
      new;
      ReloadSkins();
    }

    /** `reload_skins`: starts from the default skin and adds every folder
        entry that is a directory with a readable config.json. */
    method ReloadSkins()
      requires DistinctItems(disk)
      modifies this`order, this`skins
      ensures Valid()
      ensures Table(order, skins) == Scan(baseFolder, disk)
    {
      order := [DefaultId];
      skins := map[DefaultId := DefaultSkin()];
      var i := 0;
      while i < |disk|
        invariant 0 <= i <= |disk|
        invariant Table(order, skins) == Scan(baseFolder, disk[..i])
      {
        var entry := disk[i];
        if entry.isDir && entry.configFile.Parsed? {
          var data := entry.configFile.config;
          if entry.item !in skins {
            order := order + [entry.item];
          }
          skins := skins[entry.item := Skin(data.name.GetOr(entry.item),
                                            data.lightColor.GetOr([255, 255, 255]),
                                            data.darkColor.GetOr([0, 0, 0]),
                                            JoinPath(baseFolder, entry.item))];
        }
        assert disk[..i + 1][..i] == disk[..i];
        i := i + 1;
      }
      assert disk[..|disk|] == disk;
      ScanWellFormed(baseFolder, disk);
    }

    /** `get_skin_data`: the skin with that id, or the default one. */
    function GetSkinData(id: string): (s: Skin)
      reads this
      requires Valid()
      ensures id in skins ==> s == skins[id]
      ensures id !in skins ==> s == skins[DefaultId]
    {
      if id in skins then skins[id] else skins[DefaultId]
    }

    /** `get_skin_names`: one (id, display name) pair per skin, in the order
        the skins were added, "default" first. */
    function GetSkinNames(): (names: seq<(string, string)>)
      reads this
      requires Valid()
      ensures |names| == |skins| == |order|
      ensures forall i :: 0 <= i < |names| ==> names[i].0 == order[i] && order[i] in skins && names[i].1 == skins[order[i]].name
      ensures forall k :: k in skins ==> exists i :: 0 <= i < |names| && names[i].0 == k
      ensures forall i, j :: 0 <= i < j < |names| ==> names[i].0 != names[j].0
      ensures names[0].0 == DefaultId
    {
      NamePairsCover(order, skins);
      NamePairs(order, skins)
    }

    /** `save_new_skin`: writes the colours to config.json in the sanitised
        folder and rescans.  The skin then reads back under the returned id
        with the name and colours it was saved with. */
    method SaveNewSkin(name: string, light: seq<int>, dark: seq<int>) returns (outcome: SaveOutcome)
      requires Valid()
      modifies this`disk, this`order, this`skins
      ensures Valid()
      ensures outcome == NotADirectory <==>
                exists i :: 0 <= i < |old(disk)| && old(disk)[i].item == FolderName(name) && !old(disk)[i].isDir
      ensures outcome == NotADirectory ==> disk == old(disk) && order == old(order) && skins == old(skins)
      ensures outcome.SavedAs? ==>
                outcome.id == FolderName(name) &&
                disk == WriteSkinFolder(old(disk), outcome.id, SkinConfig(Some(name), Some(light), Some(dark))) &&
                GetSkinData(outcome.id) == Skin(name, light, dark, JoinPath(baseFolder, outcome.id))
    {
      var folder := FolderName(name);
      if exists i :: 0 <= i < |disk| && disk[i].item == folder && !disk[i].isDir {
        return NotADirectory;
      }
      var config := SkinConfig(Some(name), Some(light), Some(dark));
      WrittenSkinIsFound(baseFolder, disk, folder, config);
      disk := WriteSkinFolder(disk, folder, config);
      ReloadSkins();
      outcome := SavedAs(folder);
    }
  }
}
