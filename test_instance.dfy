/**
 * The helpers instantiated with the `url` of the repository's test file,
 * `File.join("/path", url)`, and the test expectations that agree with the
 * library as written.
 */
module TestInstance {
  import opened SinatraHelpers

  /**
   * `File.join("/path", p)` for a path with at most one leading slash: the
   * two parts are joined with exactly one slash between them.
   */
  function TestUrl(p: string): (r: string)
    ensures Rooted(p) ==> r == "/path" + p
  {
    if Rooted(p) then "/path" + p else "/path/" + p
  }

  // The test `url` meets the hypotheses of the injectivity lemmas.

  lemma TestUrlRootedInjective()
    ensures RootedInjective(TestUrl)
  {
    forall p, q | Rooted(p) && Rooted(q) && TestUrl(p) == TestUrl(q) ensures p == q {
      assert p == TestUrl(p)[5..] && q == TestUrl(q)[5..];
    }
  }

  lemma TestUrlStylesheetInjective()
    ensures StylesheetUrlInjective(TestUrl)
  {
    forall x, y | TestUrl(StylesheetPath(x)) == TestUrl(StylesheetPath(y)) ensures x == y {
      assert StylesheetPath(x) == TestUrl(StylesheetPath(x))[5..];
      assert StylesheetPath(y) == TestUrl(StylesheetPath(y))[5..];
      StylesheetPathInjective(x, y);
    }
  }

  lemma TestUrlJavascriptInjective()
    ensures JavascriptUrlInjective(TestUrl)
  {
    forall x, y | TestUrl(JavascriptPath(x)) == TestUrl(JavascriptPath(y)) ensures x == y {
      assert JavascriptPath(x) == TestUrl(JavascriptPath(x))[5..];
      assert JavascriptPath(y) == TestUrl(JavascriptPath(y))[5..];
      JavascriptPathInjective(x, y);
    }
  }

  lemma TestUrlImageInjective()
    ensures ImageUrlInjective(TestUrl)
  {
    forall x, y | TestUrl(ImagePath(x)) == TestUrl(ImagePath(y)) ensures x == y {
      assert ImagePath(x) == TestUrl(ImagePath(x))[5..];
      assert ImagePath(y) == TestUrl(ImagePath(y))[5..];
      ImagePathInjective(x, y);
    }
  }

  /** With the test `url`, stylesheet names free of newlines are recovered from the output. */
  lemma TestUrlStylesheetLinksInjective(a: seq<string>, b: seq<string>)
    requires forall i :: 0 <= i < |a| ==> NewlineChar !in a[i]
    requires forall i :: 0 <= i < |b| ==> NewlineChar !in b[i]
    requires StylesheetLinks(TestUrl, a) == StylesheetLinks(TestUrl, b)
    ensures a == b
  {
    TestUrlStylesheetInjective();
    TestUrlStylesheetsNewlineFree(a);
    TestUrlStylesheetsNewlineFree(b);
    StylesheetLinksInjective(TestUrl, a, b);
  }

  lemma TestUrlStylesheetsNewlineFree(sources: seq<string>)
    requires forall i :: 0 <= i < |sources| ==> NewlineChar !in sources[i]
    ensures StylesheetUrlsNewlineFree(TestUrl, sources)
  {
    forall i | 0 <= i < |sources| ensures NewlineChar !in TestUrl(StylesheetPath(sources[i])) {
      TestUrlStylesheetNewlineFree(sources[i]);
    }
  }

  lemma TestUrlStylesheetNewlineFree(stylesheet: string)
    requires NewlineChar !in stylesheet
    ensures NewlineChar !in TestUrl(StylesheetPath(stylesheet))
  {
    var pre, suf := "/path/css/", ".css";
    assert NewlineChar !in pre && NewlineChar !in suf;
    assert TestUrl(StylesheetPath(stylesheet)) == pre + stylesheet + suf;
  }

  /** With the test `url`, script names free of newlines are recovered from the output. */
  lemma TestUrlJavascriptIncludesInjective(a: seq<string>, b: seq<string>)
    requires forall i :: 0 <= i < |a| ==> NewlineChar !in a[i]
    requires forall i :: 0 <= i < |b| ==> NewlineChar !in b[i]
    requires JavascriptIncludes(TestUrl, a) == JavascriptIncludes(TestUrl, b)
    ensures a == b
  {
    TestUrlJavascriptInjective();
    TestUrlScriptsNewlineFree(a);
    TestUrlScriptsNewlineFree(b);
    JavascriptIncludesInjective(TestUrl, a, b);
  }

  lemma TestUrlScriptsNewlineFree(sources: seq<string>)
    requires forall i :: 0 <= i < |sources| ==> NewlineChar !in sources[i]
    ensures JavascriptUrlsNewlineFree(TestUrl, sources)
  {
    forall i | 0 <= i < |sources| ensures NewlineChar !in TestUrl(JavascriptPath(sources[i])) {
      TestUrlScriptNewlineFree(sources[i]);
    }
  }

  lemma TestUrlScriptNewlineFree(javascript: string)
    requires NewlineChar !in javascript
    ensures NewlineChar !in TestUrl(JavascriptPath(javascript))
  {
    var pre, suf := "/path/js/", ".js";
    assert NewlineChar !in pre && NewlineChar !in suf;
    assert TestUrl(JavascriptPath(javascript)) == pre + javascript + suf;
  }

  // Examples with the test `url`. `LinkToHome`, `JavascriptIncludeApp` and
  // `JavascriptIncludeJqueryApp` state the test file's expected strings; the
  // others state what the library outputs for calls the tests do not make, or,
  // for `ImageTagHome`, make with a different expectation. Apart from
  // `LinkToHome`, each string is split where the library interpolates a value.

  /** An internal link goes through `url`. */
  lemma LinkToHome()
    ensures LinkTo(TestUrl, "Home", "/home") == "<a href=\"/path/home\">Home</a>"
  {
    assert TestUrl("/home") == "/path/home";
  }

  /** The title is not escaped: markup inside it reaches the output as is. */
  lemma LinkToTitleUnescaped()
    ensures LinkTo(TestUrl, "<b>Home</b>", "/home") == "<a href=\"" + "/path/home" + "\">" + "<b>Home</b>" + "</a>"
  {
    assert TestUrl("/home") == "/path/home";
  }

  /** A single script gives one tag and no newline. */
  lemma JavascriptIncludeApp()
    ensures JavascriptIncludes(TestUrl, ["app"])
         == "<script type=\"text/javascript\" src=\"" + "/path/js/app.js" + "\"></script>"
  {
    assert TestUrl(JavascriptPath("app")) == "/path/js/app.js";
  }

  lemma JavascriptIncludeJquery()
    ensures JavascriptIncludes(TestUrl, ["jquery"])
         == "<script type=\"text/javascript\" src=\"" + "/path/js/jquery.js" + "\"></script>"
  {
    assert TestUrl(JavascriptPath("jquery")) == "/path/js/jquery.js";
  }

  /** Two scripts give their tags in argument order, joined by one newline. */
  lemma JavascriptIncludeJqueryApp()
    ensures JavascriptIncludes(TestUrl, ["jquery", "app"])
         == ("<script type=\"text/javascript\" src=\"" + "/path/js/jquery.js" + "\"></script>")
          + "\n"
          + ("<script type=\"text/javascript\" src=\"" + "/path/js/app.js" + "\"></script>")
  {
    JavascriptIncludeJquery();
    JavascriptIncludeApp();
    assert ["jquery"] + ["app"] == ["jquery", "app"];
    JavascriptIncludesAppend(TestUrl, ["jquery"], ["app"]);
  }

  /** The image tag ends with a newline, which the library always appends. */
  lemma ImageTagHome()
    ensures ImageTag(TestUrl, "home.png") == "<img src=\"" + "/path/images/home.png" + "\" />\n"
  {
    assert TestUrl(ImagePath("home.png")) == "/path/images/home.png";
  }
}
