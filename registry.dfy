/**
 * The theme registry: the name-to-theme map, the active theme, the built-in
 * default theme and the start-up sequence that loads every theme file.
 */
module Registry {
  import opened Wrappers
  import opened Xml
  import opened ColorCodec
  import opened Alignments
  import opened Themes
  import opened ThemeLoader
  import opened StringOrder

  /** The built-in theme that `generateDefault` seeds. */
  function DefaultTheme(): Theme
  {
    var defaultText := TextStyle(Some(0x777777FF), None);
    EmptyTheme.(
      name := "default",
      background := EmptyElement.(color := Some(0x444444FF)),
      defaultText := defaultText,
      footer := EmptyElement.(color := Some(0xAAAAAAFF), alignment := Center),
      spacerColor := Some(0xC6C7C6FF),
      title := EmptyElement.(color := Some(0x999999FF), alignment := Center),
      optionList := EmptyElement.(color := defaultText.color))
  }

  /** The map right after `generateDefault` on a new registry. */
  function DefaultMap(): map<string, Theme>
  {
    map["default" := DefaultTheme()]
  }

  /** Every theme is stored under its own name. */
  ghost predicate NamesAreKeys(m: map<string, Theme>)
  {
    forall k :: k in m ==> m[k].name == k
  }

  /** What `setTheme` accepts: an entry under `name` whose name is not empty. */
  predicate CanSelect(m: map<string, Theme>, name: string)
  {
    name in m && m[name].name != ""
  }

  /** What reading one file gives: a theme, None for a skipped file, or a colour error. */
  type FileOutcome = Result<Option<Theme>, ColorError>

  /** The outcome of reading each file, in order. */
  function Outcomes(files: seq<Option<Node>>): (os: seq<FileOutcome>)
    ensures |os| == |files|
    ensures forall i :: 0 <= i < |files| ==> os[i] == LoadFile(files[i])
  {
    if files == [] then [] else Outcomes(files[..|files| - 1]) + [LoadFile(files[|files| - 1])]
  }

  /**
   * Reference definition of `parseFile`'s effect on the map: a skipped file
   * leaves it alone, a loaded theme is stored under its name, overwriting
   * what was there, and a colour error is passed on.
   */
  function LoadInto(m: map<string, Theme>, o: FileOutcome): (r: Result<map<string, Theme>, ColorError>)
    ensures r.Failure? <==> o.Failure?
    ensures r.Failure? ==> r.error == o.error
    ensures o == Success(None) ==> r == Success(m)
    ensures o.Success? && o.value.Some? ==>
      && r.value.Keys == m.Keys + {o.value.value.name}
      && r.value[o.value.value.name] == o.value.value
      && forall k :: k in m && k != o.value.value.name ==> r.value[k] == m[k]
  {
    match o
    case Failure(err) => Failure(err)
    case Success(None) => Success(m)
    case Success(Some(t)) => Success(m[t.name := t])
  }

  /**
   * The map after loading files with outcomes `os` in order. The first
   * colour error ends the whole load: the source does not catch it around
   * the loop.
   */
  function LoadAll(m: map<string, Theme>, os: seq<FileOutcome>): (r: Result<map<string, Theme>, ColorError>)
    ensures r.Success? <==> forall i :: 0 <= i < |os| ==> os[i].Success?
    ensures r.Failure? ==>
      exists i :: 0 <= i < |os| && os[i] == Failure(r.error) && forall j :: 0 <= j < i ==> os[j].Success?
  {
    if os == [] then Success(m)
    else
      var init := os[..|os| - 1];
      assert forall i :: 0 <= i < |init| ==> init[i] == os[i];
      match LoadAll(m, init)
      case Failure(err) => Failure(err)
      case Success(m1) => LoadInto(m1, os[|os| - 1])
  }

  /** The names of the themes that files with outcomes `os` load. */
  function LoadedNames(os: seq<FileOutcome>): set<string>
  {
    if os == [] then {}
    else
      var last := os[|os| - 1];
      LoadedNames(os[..|os| - 1]) + (if last.Success? && last.value.Some? then {last.value.value.name} else {})
  }

  /** Loading adds exactly the loaded names to the keys and removes none. */
  lemma {:induction false} LoadAllKeys(m: map<string, Theme>, os: seq<FileOutcome>)
    requires LoadAll(m, os).Success?
    ensures LoadAll(m, os).value.Keys == m.Keys + LoadedNames(os)
  {
    if os != [] {
      LoadAllKeys(m, os[..|os| - 1]);
    }
  }

  /** A key no file loads keeps its entry. */
  lemma {:induction false} LoadAllKeepsOthers(m: map<string, Theme>, os: seq<FileOutcome>, k: string)
    requires LoadAll(m, os).Success? && k in m && k !in LoadedNames(os)
    ensures k in LoadAll(m, os).value && LoadAll(m, os).value[k] == m[k]
  {
    if os != [] {
      LoadAllKeepsOthers(m, os[..|os| - 1], k);
    }
  }

  /** A theme file names the theme it holds, so loading keeps every theme under its own name. */
  lemma {:induction false} LoadAllKeepsNames(m: map<string, Theme>, files: seq<Option<Node>>)
    requires NamesAreKeys(m) && LoadAll(m, Outcomes(files)).Success?
    ensures NamesAreKeys(LoadAll(m, Outcomes(files)).value)
  {
    if files != [] {
      var init := files[..|files| - 1];
      assert Outcomes(files)[..|files| - 1] == Outcomes(init);
      LoadAllKeepsNames(m, init);
    }
  }

  /**
   * Last wins: the theme of file `j` is the one stored under its name when
   * no later file loads a theme of the same name.
   */
  lemma {:induction false} LastWins(m: map<string, Theme>, os: seq<FileOutcome>, j: nat, t: Theme)
    requires LoadAll(m, os).Success?
    requires j < |os| && os[j] == Success(Some(t))
    requires forall i :: j < i < |os| && os[i].Success? && os[i].value.Some? ==> os[i].value.value.name != t.name
    ensures t.name in LoadAll(m, os).value && LoadAll(m, os).value[t.name] == t
  {
    var init := os[..|os| - 1];
    if j < |os| - 1 {
      assert init[j] == os[j];
      LastWins(m, init, j, t);
    } else {
      assert LoadAll(m, init).Success?;
    }
  }

  /** The built-in default is selectable whatever the theme directory holds. */
  lemma DefaultSurvivesLoading(files: seq<Option<Node>>)
    requires LoadAll(DefaultMap(), Outcomes(files)).Success?
    ensures CanSelect(LoadAll(DefaultMap(), Outcomes(files)).value, "default")
    ensures NamesAreKeys(LoadAll(DefaultMap(), Outcomes(files)).value)
  {
    LoadAllKeys(DefaultMap(), Outcomes(files));
    LoadAllKeepsNames(DefaultMap(), files);
  }

  /** Right after seeding, "default" is selectable with the built-in colours. */
  lemma DefaultThemeSelectable()
    ensures CanSelect(DefaultMap(), "default")
    ensures DefaultMap()["default"].background.color == Some(0x444444FF)
    ensures DefaultMap()["default"].title.color == Some(0x999999FF)
    ensures DefaultMap()["default"].title.alignment == Center
    ensures DefaultMap()["default"].optionList.color == DefaultMap()["default"].defaultText.color
  {
  }

  class WindowThemeData {
    var themeMap: map<string, Theme>
    /** The key of the entry `mCurrentTheme` points at; None before a theme is set. */
    var current: Option<string>

    /** The state the start-up sequence establishes and every later call keeps. */
    ghost predicate Valid()
      reads this
    {
      && CanSelect(themeMap, "default")
      && NamesAreKeys(themeMap)
      && current.Some? && CanSelect(themeMap, current.value)
    }

    constructor ()
      ensures themeMap == map[] && current == None
    {
      themeMap := map[];
      current := None;
    }

    /** The active theme. */
    function ActiveTheme(): (t: Theme)
      reads this
      requires Valid()
      ensures t.name == current.value
    {
      themeMap[current.value]
    }

    /** Puts the built-in theme under "default", replacing any entry there. */
    method GenerateDefault()
      modifies this
      ensures themeMap == old(themeMap)["default" := DefaultTheme()]
      ensures current == old(current)
    {
      themeMap := themeMap["default" := DefaultTheme()];
    }

    /**
     * `parseFile`: false for a missing file or a document without a named
     * root, a thrown colour error as Failure, true once the theme is stored.
     */
    method ParseFile(file: Option<Node>) returns (r: Result<bool, ColorError>)
      modifies this
      ensures r.Failure? <==> LoadFile(file).Failure?
      ensures r.Failure? ==> r.error == LoadFile(file).error && themeMap == old(themeMap)
      ensures r.Success? ==> (r.value == LoadFile(file).value.Some?
        && themeMap == LoadInto(old(themeMap), LoadFile(file)).value)
      ensures current == old(current)
    {
      if file.None? {
        return Success(false);
      }
      var root := Child(file, "WindowTheme");
      if root.None? || root.value.nameAttr.None? {
        return Success(false);
      }
      var theme := ReadTheme(root.value);
      if theme.Failure? {
        return Failure(theme.error);
      }
      themeMap := themeMap[theme.value.name := theme.value];
      r := Success(true);
    }

    /**
     * `setTheme` with a lookup that does not insert: succeeds exactly when
     * the entry exists and has a name, and then makes it active; the map
     * never changes.
     */
    method SetTheme(name: string) returns (ok: bool)
      modifies this
      ensures ok == CanSelect(old(themeMap), name)
      ensures themeMap == old(themeMap)
      ensures current == if ok then Some(name) else old(current)
      ensures old(Valid()) ==> Valid()
    {
      if name !in themeMap || themeMap[name].name == "" {
        return false;
      }
      current := Some(name);
      ok := true;
    }

    /**
     * `setTheme` as written: `mThemeMap[name]` inserts an empty theme under
     * an unknown name before its name is tested.
     */
    method SetThemeAsWritten(name: string) returns (ok: bool)
      modifies this
      ensures ok == CanSelect(old(themeMap), name)
      ensures themeMap == if name in old(themeMap) then old(themeMap) else old(themeMap)[name := EmptyTheme]
      ensures current == if ok then Some(name) else old(current)
      ensures name !in old(themeMap) && name != "" ==> !NamesAreKeys(themeMap)
    {
      if name !in themeMap {
        themeMap := themeMap[name := EmptyTheme];
      }
      if themeMap[name].name == "" {
        return false;
      }
      current := Some(name);
      ok := true;
    }

    /** The keys of the map, in the map's ascending order. */
    method GetThemeNames() returns (names: seq<string>)
      ensures forall k :: k in themeMap <==> k in names
      ensures StrictlySorted(names)
      ensures |names| == |themeMap|
    {
      names := [];
      var keys := themeMap.Keys;
      var rest := keys;
      while rest != {}
        invariant rest <= keys
        invariant forall k :: k in keys <==> k in names || k in rest
        invariant forall i :: 0 <= i < |names| ==> names[i] !in rest
        invariant StrictlySorted(names)
        invariant forall i, k :: 0 <= i < |names| && k in rest ==> Less(names[i], k)
        invariant |names| + |rest| == |keys|
        decreases rest
      {
        ghost var least := LeastExists(rest);
        assert least in rest;
        var k :| k in rest && IsLeast(k, rest);
        assert IsLeast(k, rest);
        names := names + [k];
        rest := rest - {k};
      }
      assert |keys| == |themeMap|;
    }
  }

  /**
   * The constructor's start-up sequence: seed the default, load every file
   * of the theme directory in order, then select the configured theme or
   * fall back to "default". A colour error in any file escapes the
   * constructor, so no registry results.
   */
  method Create(files: seq<Option<Node>>, configured: string) returns (r: Result<WindowThemeData, ColorError>)
    ensures r.Failure? <==> LoadAll(DefaultMap(), Outcomes(files)).Failure?
    ensures r.Failure? ==> r.error == LoadAll(DefaultMap(), Outcomes(files)).error
    ensures r.Success? ==> (fresh(r.value) && r.value.Valid()
      && r.value.themeMap == LoadAll(DefaultMap(), Outcomes(files)).value
      && r.value.current == Some(if CanSelect(r.value.themeMap, configured) then configured else "default"))
  {
    var w := new WindowThemeData();
    w.GenerateDefault();
    assert w.themeMap == DefaultMap();
    var i := 0;
    while i < |files|
      invariant 0 <= i <= |files|
      invariant LoadAll(DefaultMap(), Outcomes(files)[..i]).Success?
      invariant w.themeMap == LoadAll(DefaultMap(), Outcomes(files)[..i]).value
    {
      assert Outcomes(files)[..i + 1][..i] == Outcomes(files)[..i];
      var res := w.ParseFile(files[i]);
      if res.Failure? {
        LoadAllStopsAt(DefaultMap(), Outcomes(files), i + 1);
        return Failure(res.error);
      }
      i := i + 1;
    }
    assert Outcomes(files)[..i] == Outcomes(files);
    DefaultSurvivesLoading(files);
    var ok := w.SetTheme(configured);
    if !ok {
      ok := w.SetTheme("default");
    }
    r := Success(w);
  }

  /** A failure in a prefix of the files is the failure of the whole load. */
  lemma {:induction false} LoadAllStopsAt(m: map<string, Theme>, os: seq<FileOutcome>, n: nat)
    requires n <= |os| && LoadAll(m, os[..n]).Failure?
    ensures LoadAll(m, os) == LoadAll(m, os[..n])
  {
    if n < |os| {
      var init := os[..|os| - 1];
      assert init[..n] == os[..n];
      LoadAllStopsAt(m, init, n);
    } else {
      assert os[..n] == os;
    }
  }

  // ---------------------------------------------------------------------
  // Selecting an unknown theme, as written and corrected

  /** With the lookup as written, a failed selection leaves its name among the theme names. */
  method UnknownNameListedAsWritten() returns (ok: bool, names: seq<string>)
    ensures !ok && "retro" in names && |names| == 2
  {
    var w := new WindowThemeData();
    w.GenerateDefault();
    ok := w.SetThemeAsWritten("retro");
    names := w.GetThemeNames();
  }

  /** With the non-inserting lookup, the names are just the loaded ones. */
  method UnknownNameNotListed() returns (ok: bool, names: seq<string>)
    ensures !ok && names == ["default"]
  {
    var w := new WindowThemeData();
    w.GenerateDefault();
    ok := w.SetTheme("retro");
    names := w.GetThemeNames();
    assert "default" in names;
  }

  // ---------------------------------------------------------------------
  // End to end

  /** A theme directory holding one file that names theme "retro" with a background colour. */
  function RetroFile(): Node
  {
    var color := Node(None, "112233", map[]);
    var background := Node(None, "", map["color" := color]);
    var window := Node(None, "", map["background" := background]);
    Node(None, "", map["WindowTheme" := Node(Some("retro"), "", map["window" := window])])
  }

  /** The retro file loads a theme named "retro" with background 0x112233FF. */
  lemma RetroFileLoads()
    ensures LoadFile(Some(RetroFile())).Success? && LoadFile(Some(RetroFile())).value.Some?
    ensures LoadFile(Some(RetroFile())).value.value.name == "retro"
    ensures LoadFile(Some(RetroFile())).value.value.background.color == Some(0x112233FF)
  {
    Hex112233();
    var root := RetroFile().children["WindowTheme"];
    var window := Child(Some(root), "window");
    assert ElementColorTexts(Child(window, "background")) == ["112233"];
    assert RegionColorTexts(window) == ["112233"];
    assert ThemeColorTexts(root) == ["112233"];
    assert FirstColorError(["112233"]) == None;
    assert ThemeOf(root).background.color == Some(0x112233FF);
  }

  lemma Hex112233()
    ensures GetHexColor(Some("112233")) == Success(0x112233FF)
  {
    HexSnoc("", '1');
    assert "" + ['1'] == "1";
    HexSnoc("1", '1');
    assert "1" + ['1'] == "11";
    HexSnoc("11", '2');
    assert "11" + ['2'] == "112";
    HexSnoc("112", '2');
    assert "112" + ['2'] == "1122";
    HexSnoc("1122", '3');
    assert "1122" + ['3'] == "11223";
    HexSnoc("11223", '3');
    assert "11223" + ['3'] == "112233";
  }

  lemma RetroLoads()
    ensures LoadAll(DefaultMap(), Outcomes([Some(RetroFile())])).Success?
    ensures CanSelect(LoadAll(DefaultMap(), Outcomes([Some(RetroFile())])).value, "retro")
    ensures LoadAll(DefaultMap(), Outcomes([Some(RetroFile())])).value["retro"].background.color == Some(0x112233FF)
  {
    RetroFileLoads();
    var os := Outcomes([Some(RetroFile())]);
    assert os[..0] == [];
  }

  /** Start-up with that directory and "retro" configured makes "retro" active. */
  method RetroStartup() returns (name: string, background: Option<uint32>)
    ensures name == "retro" && background == Some(0x112233FF)
  {
    RetroLoads();
    var r := Create([Some(RetroFile())], "retro");
    var active := r.value.ActiveTheme();
    name, background := active.name, active.background.color;
  }
}
