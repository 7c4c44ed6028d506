/**
 * Theme records and the reference definitions of what reading one style
 * element, one theme and one theme file produces.
 *
 * The definitions are in "errors first" form: a read fails exactly when one
 * of the colour strings it decodes, taken in the order the loader decodes
 * them, fails, and then with that string's error; otherwise every field is
 * given at once. The step-by-step loader in ThemeLoader is proved equal to
 * these definitions.
 */
module Themes {
  import opened Wrappers
  import opened Xml
  import opened ColorCodec
  import opened Alignments

  /** The style of one window region (background, title, footer, ...). */
  datatype Element = Element(
    color: Option<uint32>,
    colorFocused: Option<uint32>,
    path: Option<string>,
    pathFocused: Option<string>,
    pathSelected: Option<string>,
    alignment: Alignment)

  datatype TextStyle = TextStyle(color: Option<uint32>, path: Option<string>)

  datatype Theme = Theme(
    name: string,
    defaultText: TextStyle,
    spacerColor: Option<uint32>,
    arrow: Option<string>,
    background: Element,
    title: Element,
    footer: Element,
    button: Element,
    optionList: Element,
    switchControl: Element)

  /** A freshly constructed element: nothing set, centred. */
  const EmptyElement := Element(None, None, None, None, None, Center)

  /** A freshly constructed theme: empty name, every field unset. */
  const EmptyTheme := Theme("", TextStyle(None, None), None, None,
    EmptyElement, EmptyElement, EmptyElement, EmptyElement, EmptyElement, EmptyElement)

  /** The first decoding error among `texts`, if any. */
  function FirstColorError(texts: seq<string>): (e: Option<ColorError>)
    ensures e.None? <==> forall i :: 0 <= i < |texts| ==> GetHexColor(Some(texts[i])).Success?
    ensures e.Some? ==>
      exists i :: 0 <= i < |texts| && GetHexColor(Some(texts[i])) == Failure(e.value)
        && forall j :: 0 <= j < i ==> GetHexColor(Some(texts[j])).Success?
  {
    if texts == [] then None
    else match GetHexColor(Some(texts[0]))
      case Failure(err) => Some(err)
      case Success(_) =>
        var rest := FirstColorError(texts[1..]);
        assert forall i :: 1 <= i < |texts| ==> texts[i] == texts[1..][i - 1];
        rest
  }

  /** A sequence of texts decodes cleanly only when both parts do; else the first part's error wins. */
  lemma {:induction false} FirstColorErrorAppend(a: seq<string>, b: seq<string>)
    ensures FirstColorError(a + b) == if FirstColorError(a).Some? then FirstColorError(a) else FirstColorError(b)
  {
    if a == [] {
      assert a + b == b;
    } else {
      assert (a + b)[0] == a[0];
      assert (a + b)[1..] == a[1..] + b;
      FirstColorErrorAppend(a[1..], b);
    }
  }

  /** The text of the child `tag` of `n` as a one-element sequence, or nothing. */
  function OptText(n: Option<Node>, tag: string): (texts: seq<string>)
    ensures |texts| <= 1 && (texts != [] <==> HasChild(n, tag))
  {
    if HasChild(n, tag) then [ChildText(n, tag)] else []
  }

  /** The colour strings of a style node, in decoding order. */
  function ElementColorTexts(n: Option<Node>): seq<string>
  {
    OptText(n, "color") + OptText(n, "color_focused")
  }

  /**
   * The decoded colour under `tag` if that child is present, else `prior`.
   * The Failure branch never matters: every use is guarded by FirstColorError
   * being None, and the source throws on a bad colour instead.
   */
  function ColorOr(n: Option<Node>, tag: string, prior: Option<uint32>): Option<uint32>
  {
    if HasChild(n, tag) then
      match GetHexColor(Some(ChildText(n, tag)))
      case Success(c) => Some(c)
      case Failure(_) => prior
    else prior
  }

  /** The text under `tag` if that child is present, else `prior`. */
  function TextOr(n: Option<Node>, tag: string, prior: Option<string>): Option<string>
  {
    if HasChild(n, tag) then Some(ChildText(n, tag)) else prior
  }

  /** The alignment an element gets: the resolved token, or Center without one. */
  function AlignmentOf(n: Option<Node>): Alignment
  {
    if HasChild(n, "alignment") then GetAlignment(ChildText(n, "alignment")) else Center
  }

  /** The fields of `prior` after applying `node`, when its colours decode. */
  function ElementOf(node: Node, prior: Element): Element
  {
    var n := Some(node);
    Element(
      ColorOr(n, "color", prior.color),
      ColorOr(n, "color_focused", prior.colorFocused),
      TextOr(n, "path", prior.path),
      TextOr(n, "path_focused", prior.pathFocused),
      TextOr(n, "path_selected", prior.pathSelected),
      AlignmentOf(n))
  }

  /** Reference definition of applying the style node `node` to `prior`. */
  function ExtractElement(node: Node, prior: Element): Result<Element, ColorError>
  {
    match FirstColorError(ElementColorTexts(Some(node)))
    case Some(err) => Failure(err)
    case None => Success(ElementOf(node, prior))
  }

  /** A region of `window` applied to `prior`; an absent region leaves `prior` as it is. */
  function RegionOf(window: Option<Node>, tag: string, prior: Element): Element
  {
    match Child(window, tag)
    case None => prior
    case Some(node) => ElementOf(node, prior)
  }

  /**
   * Every colour string reading `root` decodes, in decoding order:
   * text-default, spacer, then the regions background, title, footer,
   * button, option_list and switch.
   */
  function ThemeColorTexts(root: Node): seq<string>
  {
    var window := Child(Some(root), "window");
    OptText(Child(Some(root), "text-default"), "color")
      + (OptText(Child(window, "spacer"), "color")
      + RegionColorTexts(window))
  }

  /** The colour strings of the six regions, in the order they are read. */
  function RegionColorTexts(window: Option<Node>): seq<string>
  {
    ElementColorTexts(Child(window, "background"))
      + (ElementColorTexts(Child(window, "title"))
      + (ElementColorTexts(Child(window, "footer"))
      + (ElementColorTexts(Child(window, "button"))
      + OptionListOnwardTexts(window))))
  }

  /** The colour strings of the option list and then the switch. */
  function OptionListOnwardTexts(window: Option<Node>): seq<string>
  {
    ElementColorTexts(Child(window, "option_list")) + ElementColorTexts(Child(window, "switch"))
  }

  /** The theme a named root yields when all its colours decode. */
  function ThemeOf(root: Node): Theme
    requires root.nameAttr.Some?
  {
    var textDefault := Child(Some(root), "text-default");
    var window := Child(Some(root), "window");
    var defaultText := TextStyle(ColorOr(textDefault, "color", None), TextOr(textDefault, "path", None));
    Theme(
      root.nameAttr.value,
      defaultText,
      ColorOr(Child(window, "spacer"), "color", None),
      TextOr(Child(window, "arrow"), "path", None),
      RegionOf(window, "background", EmptyElement),
      RegionOf(window, "title", EmptyElement),
      RegionOf(window, "footer", EmptyElement),
      RegionOf(window, "button", EmptyElement),
      RegionOf(window, "option_list", EmptyElement.(color := defaultText.color)),
      RegionOf(window, "switch", EmptyElement))
  }

  /** Reference definition of reading a `WindowTheme` root that has a name. */
  function LoadTheme(root: Node): Result<Theme, ColorError>
    requires root.nameAttr.Some?
  {
    match FirstColorError(ThemeColorTexts(root))
    case Some(err) => Failure(err)
    case None => Success(ThemeOf(root))
  }

  /**
   * Reference definition of reading one theme file: None for a missing file
   * and for a document without a named `WindowTheme` root (the file is
   * skipped), a colour error as thrown, else the theme.
   */
  function LoadFile(file: Option<Node>): Result<Option<Theme>, ColorError>
  {
    var root := Child(file, "WindowTheme");
    if root.None? || root.value.nameAttr.None? then Success(None)
    else match LoadTheme(root.value)
      case Failure(err) => Failure(err)
      case Success(t) => Success(Some(t))
  }

  // ---------------------------------------------------------------------
  // Properties of the reference definitions

  /** An absent child leaves its field as it was; a present one replaces it. */
  lemma ElementFieldsArePresenceGuarded(node: Node, prior: Element)
    requires ExtractElement(node, prior).Success?
    ensures var e := ExtractElement(node, prior).value;
      && (!HasChild(Some(node), "color") ==> e.color == prior.color)
      && (!HasChild(Some(node), "color_focused") ==> e.colorFocused == prior.colorFocused)
      && (!HasChild(Some(node), "path") ==> e.path == prior.path)
      && (!HasChild(Some(node), "path_focused") ==> e.pathFocused == prior.pathFocused)
      && (!HasChild(Some(node), "path_selected") ==> e.pathSelected == prior.pathSelected)
      && (HasChild(Some(node), "color") ==> e.color == GetHexColor(Some(ChildText(Some(node), "color"))).ToOption())
      && (HasChild(Some(node), "color_focused") ==> e.colorFocused == GetHexColor(Some(ChildText(Some(node), "color_focused"))).ToOption())
      && (HasChild(Some(node), "path") ==> e.path == Some(ChildText(Some(node), "path")))
      && (HasChild(Some(node), "path_focused") ==> e.pathFocused == Some(ChildText(Some(node), "path_focused")))
      && (HasChild(Some(node), "path_selected") ==> e.pathSelected == Some(ChildText(Some(node), "path_selected")))
  {
    ColorsOfCleanElement(node);
  }

  /** Alignment is always overwritten: what the element held before does not matter. */
  lemma AlignmentIgnoresPrior(node: Node, p: Element, q: Element)
    requires ExtractElement(node, p).Success?
    ensures ExtractElement(node, q).Success?
    ensures ExtractElement(node, p).value.alignment == ExtractElement(node, q).value.alignment
    ensures !HasChild(Some(node), "alignment") ==> ExtractElement(node, p).value.alignment == Center
  {
  }

  /** Applying the same style node twice is the same as applying it once. */
  lemma ExtractIdempotent(node: Node, prior: Element)
    requires ExtractElement(node, prior).Success?
    ensures ExtractElement(node, ExtractElement(node, prior).value) == ExtractElement(node, prior)
  {
  }

  /** A clean element decoded every colour child it has. */
  lemma ColorsOfCleanElement(node: Node)
    requires FirstColorError(ElementColorTexts(Some(node))).None?
    ensures HasChild(Some(node), "color") ==> GetHexColor(Some(ChildText(Some(node), "color"))).Success?
    ensures HasChild(Some(node), "color_focused") ==> GetHexColor(Some(ChildText(Some(node), "color_focused"))).Success?
  {
    var texts := ElementColorTexts(Some(node));
    if HasChild(Some(node), "color") {
      assert texts[0] == ChildText(Some(node), "color");
    }
    if HasChild(Some(node), "color_focused") {
      assert texts[|texts| - 1] == ChildText(Some(node), "color_focused");
    }
  }

  /**
   * The option list starts from the default text colour, so without its own
   * `color` child it shows that colour and with one it shows its own.
   */
  lemma OptionListInheritsDefaultText(root: Node)
    requires root.nameAttr.Some? && LoadTheme(root).Success?
    ensures var t := LoadTheme(root).value;
      var list := Child(Child(Some(root), "window"), "option_list");
      && (!HasChild(list, "color") ==> t.optionList.color == t.defaultText.color)
      && (HasChild(list, "color") ==> t.optionList.color == GetHexColor(Some(ChildText(list, "color"))).ToOption())
  {
    var window := Child(Some(root), "window");
    var list := Child(window, "option_list");
    if HasChild(list, "color") {
      OptionListColorDecoded(root);
    }
  }

  lemma OptionListColorDecoded(root: Node)
    requires root.nameAttr.Some? && FirstColorError(ThemeColorTexts(root)).None?
    requires HasChild(Child(Child(Some(root), "window"), "option_list"), "color")
    ensures GetHexColor(Some(ChildText(Child(Child(Some(root), "window"), "option_list"), "color"))).Success?
  {
    var window := Child(Some(root), "window");
    var list := Child(window, "option_list");
    FirstColorErrorAppend(OptText(Child(Some(root), "text-default"), "color"),
      OptText(Child(window, "spacer"), "color") + RegionColorTexts(window));
    FirstColorErrorAppend(OptText(Child(window, "spacer"), "color"), RegionColorTexts(window));
    var rest := OptionListOnwardTexts(window);
    FirstColorErrorAppend(ElementColorTexts(Child(window, "background")),
      ElementColorTexts(Child(window, "title")) + (ElementColorTexts(Child(window, "footer")) + (ElementColorTexts(Child(window, "button")) + rest)));
    FirstColorErrorAppend(ElementColorTexts(Child(window, "title")),
      ElementColorTexts(Child(window, "footer")) + (ElementColorTexts(Child(window, "button")) + rest));
    FirstColorErrorAppend(ElementColorTexts(Child(window, "footer")), ElementColorTexts(Child(window, "button")) + rest);
    FirstColorErrorAppend(ElementColorTexts(Child(window, "button")), rest);
    FirstColorErrorAppend(ElementColorTexts(list), ElementColorTexts(Child(window, "switch")));
    assert ElementColorTexts(list)[0] == ChildText(list, "color");
  }

  /** A theme read from a root is named by the root's `name` attribute. */
  lemma LoadedThemeIsNamedByRoot(file: Option<Node>)
    requires LoadFile(file).Success? && LoadFile(file).value.Some?
    ensures var root := Child(file, "WindowTheme");
      root.Some? && root.value.nameAttr == Some(LoadFile(file).value.value.name)
  {
  }

  /** A missing file, a document without the root tag and a nameless root are all skipped. */
  lemma UnnamedFilesAreSkipped(file: Option<Node>)
    requires file.None? || Child(file, "WindowTheme").None? || Child(file, "WindowTheme").value.nameAttr.None?
    ensures LoadFile(file) == Success(None)
  {
  }

  /** A named root whose colours all decode is loaded; a bad colour fails the file. */
  lemma NamedFileOutcome(file: Option<Node>)
    requires Child(file, "WindowTheme").Some? && Child(file, "WindowTheme").value.nameAttr.Some?
    ensures var root := Child(file, "WindowTheme").value;
      && (LoadFile(file).Success? <==> forall i :: 0 <= i < |ThemeColorTexts(root)| ==> GetHexColor(Some(ThemeColorTexts(root)[i])).Success?)
      && (LoadFile(file).Success? ==> LoadFile(file).value.Some?)
  {
  }
}
