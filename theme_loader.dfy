/**
 * The step-by-step readers: `getElementData` and the part of `parseFile`
 * that fills a local theme record field by field. A thrown colour error is
 * returned as a Failure; the partly filled record is then discarded, as the
 * source discards its local on the exception.
 */
module ThemeLoader {
  import opened Wrappers
  import opened Xml
  import opened ColorCodec
  import opened Alignments
  import opened Themes

  /**
   * Overwrites the fields of `element` that `node` has children for, in the
   * order color, color_focused, path, path_focused, path_selected, and then
   * always sets the alignment.
   */
  method GetElementData(node: Node, element: Element) returns (r: Result<Element, ColorError>)
    ensures r == ExtractElement(node, element)
  {
    var n := Some(node);
    var e := element;
    if HasChild(n, "color") {
      var c := GetHexColor(Some(ChildText(n, "color")));
      if c.Failure? {
        return Failure(c.error);
      }
      e := e.(color := Some(c.value));
    }
    if HasChild(n, "color_focused") {
      var c := GetHexColor(Some(ChildText(n, "color_focused")));
      if c.Failure? {
        FirstColorErrorAppend(OptText(n, "color"), OptText(n, "color_focused"));
        return Failure(c.error);
      }
      e := e.(colorFocused := Some(c.value));
    }
    FirstColorErrorAppend(OptText(n, "color"), OptText(n, "color_focused"));
    if HasChild(n, "path") {
      e := e.(path := Some(ChildText(n, "path")));
    }
    if HasChild(n, "path_focused") {
      e := e.(pathFocused := Some(ChildText(n, "path_focused")));
    }
    if HasChild(n, "path_selected") {
      e := e.(pathSelected := Some(ChildText(n, "path_selected")));
    }
    if HasChild(n, "alignment") {
      e := e.(alignment := GetAlignment(ChildText(n, "alignment")));
    } else {
      e := e.(alignment := Center);
    }
    r := Success(e);
  }

  /** An absent region is not read; a present one goes through GetElementData. */
  method ReadRegion(window: Option<Node>, tag: string, prior: Element) returns (r: Result<Element, ColorError>)
    ensures r.Failure? <==> FirstColorError(ElementColorTexts(Child(window, tag))).Some?
    ensures r.Failure? ==> r.error == FirstColorError(ElementColorTexts(Child(window, tag))).value
    ensures r.Success? ==> r.value == RegionOf(window, tag, prior)
  {
    var node := Child(window, tag);
    if node.Some? {
      r := GetElementData(node.value, prior);
    } else {
      r := Success(prior);
    }
  }

  /**
   * Fills a theme from a `WindowTheme` root that has a name: the name, the
   * default text, the spacer colour, the arrow path and the six regions,
   * the option list seeded with the default text colour first.
   */
  method ReadTheme(root: Node) returns (r: Result<Theme, ColorError>)
    requires root.nameAttr.Some?
    ensures r == LoadTheme(root)
  {
    var theme := EmptyTheme.(name := root.nameAttr.value);
    var textDefault := Child(Some(root), "text-default");
    var window := Child(Some(root), "window");
    // The colour strings still to be decoded; the ones before them were clean.
    ghost var todo := OptText(Child(window, "spacer"), "color") + RegionColorTexts(window);
    FirstColorErrorAppend(OptText(textDefault, "color"), todo);

    if HasChild(textDefault, "color") {
      var c := GetHexColor(Some(ChildText(textDefault, "color")));
      if c.Failure? {
        return Failure(c.error);
      }
      theme := theme.(defaultText := theme.defaultText.(color := Some(c.value)));
    }
    if HasChild(textDefault, "path") {
      theme := theme.(defaultText := theme.defaultText.(path := Some(ChildText(textDefault, "path"))));
    }

    var spacer := Child(window, "spacer");
    FirstColorErrorAppend(OptText(spacer, "color"), RegionColorTexts(window));
    if HasChild(spacer, "color") {
      var c := GetHexColor(Some(ChildText(spacer, "color")));
      if c.Failure? {
        return Failure(c.error);
      }
      theme := theme.(spacerColor := Some(c.value));
    }
    todo := RegionColorTexts(window);
    var arrow := Child(window, "arrow");
    if HasChild(arrow, "path") {
      theme := theme.(arrow := Some(ChildText(arrow, "path")));
    }
    assert FirstColorError(ThemeColorTexts(root)) == FirstColorError(todo);
    assert theme.defaultText == ThemeOf(root).defaultText;
    assert theme.spacerColor == ThemeOf(root).spacerColor && theme.arrow == ThemeOf(root).arrow;

    var regions := ReadRegions(window, theme.defaultText.color);
    if regions.Failure? {
      return Failure(regions.error);
    }
    var rs := regions.value;
    theme := theme.(background := rs.0, title := rs.1, footer := rs.2, button := rs.3,
                    optionList := rs.4, switchControl := rs.5);
    r := Success(theme);
  }

  /**
   * Reads the six regions in order. The option list starts from the default
   * text colour `textColor`; the others start from empty elements.
   */
  method ReadRegions(window: Option<Node>, textColor: Option<uint32>)
    returns (r: Result<(Element, Element, Element, Element, Element, Element), ColorError>)
    ensures r.Failure? <==> FirstColorError(RegionColorTexts(window)).Some?
    ensures r.Failure? ==> r.error == FirstColorError(RegionColorTexts(window)).value
    ensures r.Success? ==> r.value == (
      RegionOf(window, "background", EmptyElement),
      RegionOf(window, "title", EmptyElement),
      RegionOf(window, "footer", EmptyElement),
      RegionOf(window, "button", EmptyElement),
      RegionOf(window, "option_list", EmptyElement.(color := textColor)),
      RegionOf(window, "switch", EmptyElement))
  {
    var rest := ElementColorTexts(Child(window, "title")) + (ElementColorTexts(Child(window, "footer"))
      + (ElementColorTexts(Child(window, "button")) + OptionListOnwardTexts(window)));
    FirstColorErrorAppend(ElementColorTexts(Child(window, "background")), rest);
    var background := ReadRegion(window, "background", EmptyElement);
    if background.Failure? {
      return Failure(background.error);
    }

    rest := ElementColorTexts(Child(window, "footer")) + (ElementColorTexts(Child(window, "button")) + OptionListOnwardTexts(window));
    FirstColorErrorAppend(ElementColorTexts(Child(window, "title")), rest);
    var title := ReadRegion(window, "title", EmptyElement);
    if title.Failure? {
      return Failure(title.error);
    }

    rest := ElementColorTexts(Child(window, "button")) + OptionListOnwardTexts(window);
    FirstColorErrorAppend(ElementColorTexts(Child(window, "footer")), rest);
    var footer := ReadRegion(window, "footer", EmptyElement);
    if footer.Failure? {
      return Failure(footer.error);
    }

    FirstColorErrorAppend(ElementColorTexts(Child(window, "button")), OptionListOnwardTexts(window));
    var button := ReadRegion(window, "button", EmptyElement);
    if button.Failure? {
      return Failure(button.error);
    }

    var onward := ReadOptionListOnward(window, textColor);
    if onward.Failure? {
      return Failure(onward.error);
    }
    r := Success((background.value, title.value, footer.value, button.value, onward.value.0, onward.value.1));
  }

  /** Reads the option list, seeded with the default text colour `textColor`, and then the switch. */
  method ReadOptionListOnward(window: Option<Node>, textColor: Option<uint32>)
    returns (r: Result<(Element, Element), ColorError>)
    ensures r.Failure? <==> FirstColorError(OptionListOnwardTexts(window)).Some?
    ensures r.Failure? ==> r.error == FirstColorError(OptionListOnwardTexts(window)).value
    ensures r.Success? ==> r.value == (
      RegionOf(window, "option_list", EmptyElement.(color := textColor)),
      RegionOf(window, "switch", EmptyElement))
  {
    FirstColorErrorAppend(ElementColorTexts(Child(window, "option_list")), ElementColorTexts(Child(window, "switch")));
    // The default text colour is copied in before the option list is read.
    var optionList := ReadRegion(window, "option_list", EmptyElement.(color := textColor));
    if optionList.Failure? {
      return Failure(optionList.error);
    }

    var switchControl := ReadRegion(window, "switch", EmptyElement);
    if switchControl.Failure? {
      return Failure(switchControl.error);
    }
    r := Success((optionList.value, switchControl.value));
  }
}
