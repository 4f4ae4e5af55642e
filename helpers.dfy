/**
 * The tag builders of GeorgeDrummond::Sinatra::Helpers.
 *
 * Every builder resolves a path through the host's `url` helper, which the
 * mixin picks up from the Sinatra request context. Here it is an explicit
 * parameter of type `Url` about which nothing is assumed; a lemma that needs
 * more (no newline in what it returns, or that it is injective) says so.
 */
module SinatraHelpers {
  import opened Strings

  /** The host's `url(path)` helper. */
  type Url = string -> string

  /** The separator `Array#join` puts between the tags of a multi-source call. */
  const NewlineChar: char := '\n'
  const Newline: string := [NewlineChar]

  /** A path as `link_to` callers pass it for a local page: it starts with a slash. */
  predicate Rooted(path: string)
  {
    |path| > 0 && path[0] == '/'
  }

  /** `url` maps different rooted paths to different results. */
  ghost predicate RootedInjective(url: Url)
  {
    forall p, q :: Rooted(p) && Rooted(q) && url(p) == url(q) ==> p == q
  }

  // ---------------------------------------------------------------------
  // The fixed text around the single resolved value of each tag.

  const LinkOpen: string := "<link href=\""
  const LinkClose: string := "\" type=\"text/css\" />"
  const ScriptOpen: string := "<script type=\"text/javascript\" src=\""
  const ScriptClose: string := "\"></script>"
  const ImgOpen: string := "<img src=\""
  const ImgClose: string := "\" />\n"
  const AnchorOpen: string := "<a href=\""
  const AnchorMid: string := "\">"
  const AnchorClose: string := "</a>"

  // ---------------------------------------------------------------------
  // stylesheet_link_tag

  /** The path `stylesheet_link_tag` resolves for one source: `/css/NAME.css`. */
  function StylesheetPath(stylesheet: string): (r: string)
    ensures Rooted(r)
    ensures |r| == |stylesheet| + 9
  {
    "/css/" + stylesheet + ".css"
  }

  /** Different stylesheet names give different paths: the name sits between `/css/` and `.css`. */
  lemma StylesheetPathInjective(x: string, y: string)
    requires StylesheetPath(x) == StylesheetPath(y)
    ensures x == y
  {
    var p, q := StylesheetPath(x), StylesheetPath(y);
    assert x == p[5..|p| - 4] && y == q[5..|q| - 4];
  }

  /** `url` maps the paths of different stylesheet names to different results. */
  ghost predicate StylesheetUrlInjective(url: Url)
  {
    forall x, y :: url(StylesheetPath(x)) == url(StylesheetPath(y)) ==> x == y
  }

  /** `url` puts no newline into the resolved path of any of these stylesheet sources. */
  ghost predicate StylesheetUrlsNewlineFree(url: Url, sources: seq<string>)
  {
    forall i :: 0 <= i < |sources| ==> NewlineChar !in url(StylesheetPath(sources[i]))
  }

  /** The `<link>` element for one stylesheet: its href is `url` of the stylesheet's path. */
  function StylesheetTag(url: Url, stylesheet: string): (r: string)
    ensures var href := url(StylesheetPath(stylesheet));
      |r| == |LinkOpen| + |href| + |LinkClose| &&
      r[..|LinkOpen|] == LinkOpen && r[|LinkOpen|..|r| - |LinkClose|] == href && r[|r| - |LinkClose|..] == LinkClose
  {
    LinkOpen + url(StylesheetPath(stylesheet)) + LinkClose
  }

  /** The intermediate `html` array: one tag per source, in argument order. */
  function StylesheetTags(url: Url, sources: seq<string>): (r: seq<string>)
    ensures |r| == |sources|
    ensures forall i :: 0 <= i < |sources| ==> r[i] == StylesheetTag(url, sources[i])
  {
    if sources == [] then []
    else StylesheetTags(url, sources[..|sources| - 1]) + [StylesheetTag(url, sources[|sources| - 1])]
  }

  /** What `stylesheet_link_tag(*sources)` returns. */
  function StylesheetLinks(url: Url, sources: seq<string>): (r: string)
    ensures sources == [] ==> r == ""
    ensures |sources| == 1 ==> r == StylesheetTag(url, sources[0])
  {
    Join(StylesheetTags(url, sources), Newline)
  }

  /** `stylesheet_link_tag(*sources)`: appends one tag per source to `html`, then joins with newlines. */
  method StylesheetLinkTag(url: Url, sources: seq<string>) returns (out: string)
    ensures out == StylesheetLinks(url, sources)
    ensures sources == [] ==> out == ""
  {
    var html: seq<string> := [];
    for i := 0 to |sources|
      invariant html == StylesheetTags(url, sources[..i])
    {
      var stylesheet := sources[i];
      assert sources[..i + 1][..i] == sources[..i];
      html := html + [StylesheetTag(url, stylesheet)];
    }
    assert sources[..|sources|] == sources;
    out := Join(html, Newline);
  }

  lemma StylesheetTagsAppend(url: Url, a: seq<string>, b: seq<string>)
    ensures StylesheetTags(url, a + b) == StylesheetTags(url, a) + StylesheetTags(url, b)
  {
    var whole, parts := StylesheetTags(url, a + b), StylesheetTags(url, a) + StylesheetTags(url, b);
    forall i | 0 <= i < |whole| ensures whole[i] == parts[i] {
      if i < |a| {
        assert (a + b)[i] == a[i];
      } else {
        assert (a + b)[i] == b[i - |a|];
      }
    }
  }

  /** A tag holds a newline only if `url` put one into it. */
  lemma StylesheetTagNewlineFree(url: Url, stylesheet: string)
    requires NewlineChar !in url(StylesheetPath(stylesheet))
    ensures NewlineChar !in StylesheetTag(url, stylesheet)
  {
    assert NewlineChar !in LinkOpen && NewlineChar !in LinkClose;
  }

  /** Splitting the sources splits the output at a newline. */
  lemma StylesheetLinksAppend(url: Url, a: seq<string>, b: seq<string>)
    requires a != [] && b != []
    ensures StylesheetLinks(url, a + b) == StylesheetLinks(url, a) + Newline + StylesheetLinks(url, b)
  {
    StylesheetTagsAppend(url, a, b);
    JoinAppend(StylesheetTags(url, a), StylesheetTags(url, b), Newline);
  }

  /**
   * When `url` adds no newline, the output is exactly |sources| tags separated
   * by |sources| - 1 newlines: splitting it at newlines gives the tags back in order.
   */
  lemma StylesheetLinksFields(url: Url, sources: seq<string>)
    requires sources != []
    requires StylesheetUrlsNewlineFree(url, sources)
    ensures Split(StylesheetLinks(url, sources), NewlineChar) == StylesheetTags(url, sources)
    ensures Count(StylesheetLinks(url, sources), NewlineChar) == |sources| - 1
  {
    var tags := StylesheetTags(url, sources);
    StylesheetTagsNewlineFree(url, sources);
    assert StylesheetLinks(url, sources) == Join(tags, Newline);
    SplitJoin(tags, NewlineChar);
    CountJoin(tags, NewlineChar);
  }

  lemma StylesheetTagsNewlineFree(url: Url, sources: seq<string>)
    requires StylesheetUrlsNewlineFree(url, sources)
    ensures forall i :: 0 <= i < |sources| ==> NewlineChar !in StylesheetTags(url, sources)[i]
  {
    forall i | 0 <= i < |sources| ensures NewlineChar !in StylesheetTags(url, sources)[i] {
      StylesheetTagNewlineFree(url, sources[i]);
    }
  }

  /** When `url` tells stylesheet paths apart, the `<link>` element determines the stylesheet name. */
  lemma StylesheetTagInjective(url: Url, x: string, y: string)
    requires StylesheetUrlInjective(url)
    requires StylesheetTag(url, x) == StylesheetTag(url, y)
    ensures x == y
  {
    var r := StylesheetTag(url, x);
    assert url(StylesheetPath(x)) == r[|LinkOpen|..|r| - |LinkClose|] == url(StylesheetPath(y));
  }

  /**
   * When `url` tells stylesheet paths apart and adds no newline, the output
   * determines the source list: different lists never yield the same markup.
   */
  lemma StylesheetLinksInjective(url: Url, a: seq<string>, b: seq<string>)
    requires StylesheetUrlInjective(url)
    requires StylesheetUrlsNewlineFree(url, a) && StylesheetUrlsNewlineFree(url, b)
    requires StylesheetLinks(url, a) == StylesheetLinks(url, b)
    ensures a == b
  {
    if a != [] { StylesheetLinksNonEmpty(url, a); }
    if b != [] { StylesheetLinksNonEmpty(url, b); }
    if a != [] && b != [] {
      StylesheetLinksFields(url, a);
      StylesheetLinksFields(url, b);
      var ta, tb := StylesheetTags(url, a), StylesheetTags(url, b);
      assert ta == tb;
      forall i | 0 <= i < |a| ensures a[i] == b[i] {
        StylesheetTagInjective(url, a[i], b[i]);
      }
    }
  }

  lemma StylesheetLinksNonEmpty(url: Url, sources: seq<string>)
    requires sources != []
    ensures |StylesheetLinks(url, sources)| > 0
  {
    var tags := StylesheetTags(url, sources);
    if |sources| > 1 {
      assert tags == [tags[0]] + tags[1..];
    }
    assert |tags[0]| > 0;
  }

  // ---------------------------------------------------------------------
  // javascript_include_tag

  /** The path `javascript_include_tag` resolves for one source: `/js/NAME.js`. */
  function JavascriptPath(javascript: string): (r: string)
    ensures Rooted(r)
    ensures |r| == |javascript| + 7
  {
    "/js/" + javascript + ".js"
  }

  /** Different script names give different paths: the name sits between `/js/` and `.js`. */
  lemma JavascriptPathInjective(x: string, y: string)
    requires JavascriptPath(x) == JavascriptPath(y)
    ensures x == y
  {
    var p, q := JavascriptPath(x), JavascriptPath(y);
    assert x == p[4..|p| - 3] && y == q[4..|q| - 3];
  }

  /** `url` maps the paths of different script names to different results. */
  ghost predicate JavascriptUrlInjective(url: Url)
  {
    forall x, y :: url(JavascriptPath(x)) == url(JavascriptPath(y)) ==> x == y
  }

  /** `url` puts no newline into the resolved path of any of these javascript sources. */
  ghost predicate JavascriptUrlsNewlineFree(url: Url, sources: seq<string>)
  {
    forall i :: 0 <= i < |sources| ==> NewlineChar !in url(JavascriptPath(sources[i]))
  }

  /** The `<script>` element for one script: its src is `url` of the javascript's path. */
  function ScriptTag(url: Url, javascript: string): (r: string)
    ensures var src := url(JavascriptPath(javascript));
      |r| == |ScriptOpen| + |src| + |ScriptClose| &&
      r[..|ScriptOpen|] == ScriptOpen && r[|ScriptOpen|..|r| - |ScriptClose|] == src && r[|r| - |ScriptClose|..] == ScriptClose
  {
    ScriptOpen + url(JavascriptPath(javascript)) + ScriptClose
  }

  /** The intermediate `html` array: one tag per source, in argument order. */
  function ScriptTags(url: Url, sources: seq<string>): (r: seq<string>)
    ensures |r| == |sources|
    ensures forall i :: 0 <= i < |sources| ==> r[i] == ScriptTag(url, sources[i])
  {
    if sources == [] then []
    else ScriptTags(url, sources[..|sources| - 1]) + [ScriptTag(url, sources[|sources| - 1])]
  }

  /** What `javascript_include_tag(*sources)` returns. */
  function JavascriptIncludes(url: Url, sources: seq<string>): (r: string)
    ensures sources == [] ==> r == ""
    ensures |sources| == 1 ==> r == ScriptTag(url, sources[0])
  {
    Join(ScriptTags(url, sources), Newline)
  }

  /** `javascript_include_tag(*sources)`: appends one tag per source to `html`, then joins with newlines. */
  method JavascriptIncludeTag(url: Url, sources: seq<string>) returns (out: string)
    ensures out == JavascriptIncludes(url, sources)
    ensures sources == [] ==> out == ""
  {
    var html: seq<string> := [];
    for i := 0 to |sources|
      invariant html == ScriptTags(url, sources[..i])
    {
      var javascript := sources[i];
      assert sources[..i + 1][..i] == sources[..i];
      html := html + [ScriptTag(url, javascript)];
    }
    assert sources[..|sources|] == sources;
    out := Join(html, Newline);
  }

  lemma ScriptTagsAppend(url: Url, a: seq<string>, b: seq<string>)
    ensures ScriptTags(url, a + b) == ScriptTags(url, a) + ScriptTags(url, b)
  {
    var whole, parts := ScriptTags(url, a + b), ScriptTags(url, a) + ScriptTags(url, b);
    forall i | 0 <= i < |whole| ensures whole[i] == parts[i] {
      if i < |a| {
        assert (a + b)[i] == a[i];
      } else {
        assert (a + b)[i] == b[i - |a|];
      }
    }
  }

  /** A tag holds a newline only if `url` put one into it. */
  lemma ScriptTagNewlineFree(url: Url, javascript: string)
    requires NewlineChar !in url(JavascriptPath(javascript))
    ensures NewlineChar !in ScriptTag(url, javascript)
  {
    assert NewlineChar !in ScriptOpen && NewlineChar !in ScriptClose;
  }

  /** Splitting the sources splits the output at a newline. */
  lemma JavascriptIncludesAppend(url: Url, a: seq<string>, b: seq<string>)
    requires a != [] && b != []
    ensures JavascriptIncludes(url, a + b) == JavascriptIncludes(url, a) + Newline + JavascriptIncludes(url, b)
  {
    ScriptTagsAppend(url, a, b);
    JoinAppend(ScriptTags(url, a), ScriptTags(url, b), Newline);
  }

  /**
   * When `url` adds no newline, the output is exactly |sources| tags separated
   * by |sources| - 1 newlines: splitting it at newlines gives the tags back in order.
   */
  lemma JavascriptIncludesFields(url: Url, sources: seq<string>)
    requires sources != []
    requires JavascriptUrlsNewlineFree(url, sources)
    ensures Split(JavascriptIncludes(url, sources), NewlineChar) == ScriptTags(url, sources)
    ensures Count(JavascriptIncludes(url, sources), NewlineChar) == |sources| - 1
  {
    var tags := ScriptTags(url, sources);
    ScriptTagsNewlineFree(url, sources);
    assert JavascriptIncludes(url, sources) == Join(tags, Newline);
    SplitJoin(tags, NewlineChar);
    CountJoin(tags, NewlineChar);
  }

  lemma ScriptTagsNewlineFree(url: Url, sources: seq<string>)
    requires JavascriptUrlsNewlineFree(url, sources)
    ensures forall i :: 0 <= i < |sources| ==> NewlineChar !in ScriptTags(url, sources)[i]
  {
    forall i | 0 <= i < |sources| ensures NewlineChar !in ScriptTags(url, sources)[i] {
      ScriptTagNewlineFree(url, sources[i]);
    }
  }

  /** When `url` tells script paths apart, the `<script>` element determines the script name. */
  lemma ScriptTagInjective(url: Url, x: string, y: string)
    requires JavascriptUrlInjective(url)
    requires ScriptTag(url, x) == ScriptTag(url, y)
    ensures x == y
  {
    var r := ScriptTag(url, x);
    assert url(JavascriptPath(x)) == r[|ScriptOpen|..|r| - |ScriptClose|] == url(JavascriptPath(y));
  }

  /**
   * When `url` tells script paths apart and adds no newline, the output
   * determines the source list: different lists never yield the same markup.
   */
  lemma JavascriptIncludesInjective(url: Url, a: seq<string>, b: seq<string>)
    requires JavascriptUrlInjective(url)
    requires JavascriptUrlsNewlineFree(url, a) && JavascriptUrlsNewlineFree(url, b)
    requires JavascriptIncludes(url, a) == JavascriptIncludes(url, b)
    ensures a == b
  {
    if a != [] { JavascriptIncludesNonEmpty(url, a); }
    if b != [] { JavascriptIncludesNonEmpty(url, b); }
    if a != [] && b != [] {
      JavascriptIncludesFields(url, a);
      JavascriptIncludesFields(url, b);
      var ta, tb := ScriptTags(url, a), ScriptTags(url, b);
      assert ta == tb;
      forall i | 0 <= i < |a| ensures a[i] == b[i] {
        ScriptTagInjective(url, a[i], b[i]);
      }
    }
  }

  lemma JavascriptIncludesNonEmpty(url: Url, sources: seq<string>)
    requires sources != []
    ensures |JavascriptIncludes(url, sources)| > 0
  {
    var tags := ScriptTags(url, sources);
    if |sources| > 1 {
      assert tags == [tags[0]] + tags[1..];
    }
    assert |tags[0]| > 0;
  }

  // ---------------------------------------------------------------------
  // image_tag

  /** The path `image_tag` resolves: `/images/NAME`, with no extension added. */
  function ImagePath(image: string): (r: string)
    ensures Rooted(r)
    ensures |r| == |image| + 8
  {
    "/images/" + image
  }

  /** Different image names give different paths: the name follows `/images/`. */
  lemma ImagePathInjective(x: string, y: string)
    requires ImagePath(x) == ImagePath(y)
    ensures x == y
  {
    assert x == ImagePath(x)[8..] && y == ImagePath(y)[8..];
  }

  /** `url` maps the paths of different image names to different results. */
  ghost predicate ImageUrlInjective(url: Url)
  {
    forall x, y :: url(ImagePath(x)) == url(ImagePath(y)) ==> x == y
  }

  /**
   * What `image_tag(image)` returns: an `<img>` element whose src is `url` of
   * the image's path, always followed by a newline.
   */
  function ImageTag(url: Url, image: string): (r: string)
    ensures var src := url(ImagePath(image));
      |r| == |ImgOpen| + |src| + |ImgClose| &&
      r[..|ImgOpen|] == ImgOpen && r[|ImgOpen|..|r| - |ImgClose|] == src && r[|r| - |ImgClose|..] == ImgClose
    ensures r[|r| - 1] == NewlineChar
  {
    ImgOpen + url(ImagePath(image)) + ImgClose
  }

  /** When `url` tells image paths apart, the `<img>` element determines the image name. */
  lemma ImageTagInjective(url: Url, x: string, y: string)
    requires ImageUrlInjective(url)
    requires ImageTag(url, x) == ImageTag(url, y)
    ensures x == y
  {
    var r := ImageTag(url, x);
    assert url(ImagePath(x)) == r[|ImgOpen|..|r| - |ImgClose|] == url(ImagePath(y));
  }

  // ---------------------------------------------------------------------
  // link_to

  /**
   * What `link_to(title, path)` returns: an anchor whose href is `url(path)`,
   * the path passed on unchanged, around the title inserted verbatim.
   */
  function LinkTo(url: Url, title: string, path: string): (r: string)
    ensures var href, n := url(path), |AnchorOpen| + |url(path)|;
      |r| == n + |AnchorMid| + |title| + |AnchorClose| &&
      r[..|AnchorOpen|] == AnchorOpen && r[|AnchorOpen|..n] == href &&
      r[n..n + |AnchorMid|] == AnchorMid &&
      r[n + |AnchorMid|..|r| - |AnchorClose|] == title && r[|r| - |AnchorClose|..] == AnchorClose
  {
    AnchorOpen + url(path) + AnchorMid + title + AnchorClose
  }

  /** For a fixed path, the markup determines the title. */
  lemma LinkToTitleInjective(url: Url, path: string, t: string, u: string)
    requires LinkTo(url, t, path) == LinkTo(url, u, path)
    ensures t == u
  {
    var r, n := LinkTo(url, t, path), |url(path)|;
    assert t == r[|AnchorOpen| + n + |AnchorMid|..|r| - |AnchorClose|] == u;
  }

  /** For a fixed title and a `url` that tells rooted paths apart, the anchor determines a rooted path. */
  lemma LinkToPathInjective(url: Url, title: string, p: string, q: string)
    requires RootedInjective(url) && Rooted(p) && Rooted(q)
    requires LinkTo(url, title, p) == LinkTo(url, title, q)
    ensures p == q
  {
    var r := LinkTo(url, title, p);
    assert url(p) == r[|AnchorOpen|..|r| - |AnchorMid| - |title| - |AnchorClose|] == url(q);
  }
}
