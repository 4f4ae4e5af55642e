# georgedrummond_sinatra_helpers in Dafny

A model of the view helpers that the gem `georgedrummond_sinatra_helpers` mixes
into a Sinatra application (`GeorgeDrummond::Sinatra::Helpers`). There are four
tag builders:

- `stylesheet_link_tag(*sources)` turns each source name into a
  `<link href="…" type="text/css" />` element. The href is `url("/css/NAME.css")`.
  The elements are joined with newlines.
- `javascript_include_tag(*sources)` does the same with
  `<script type="text/javascript" src="…"></script>` and `url("/js/NAME.js")`.
- `image_tag(image)` returns `<img src="…" />` followed by a newline. The src is
  `url("/images/IMAGE")`.
- `link_to(title, path)` returns `<a href="…">TITLE</a>`. The href is `url(path)`.
  The title is inserted without escaping.

`url` is the host application's helper. The mixin picks it up from the Sinatra
request context. In the model it is an explicit parameter of type
`string -> string`, and nothing is assumed about it. Some lemmas need an extra
hypothesis: that `url` puts no newline into its results, or that it is
injective on the paths the builder makes (for `link_to`, on rooted paths: paths that
start with `/`). Those lemmas state the hypothesis in their `requires`, and
`TestInstance` proves that the test file's `url` meets it.

Files:

- `strings.dfy` (module `Strings`): `Join` models Ruby's `Array#join`. `Split`
  and `Count` are reference definitions. They are used to state that a join
  of separator-free fields can be split back into those fields, with one
  separator between each pair of neighbours.
- `helpers.dfy` (module `SinatraHelpers`): the four builders.
  `stylesheet_link_tag` and `javascript_include_tag` are methods. Each method
  builds a sequence `html` (a `seq<string>` value that stands for Ruby's array)
  with one `html << tag` per source and then joins it, as the Ruby code does. Each is proved equal to a pure specification function:
  `StylesheetLinks` or `JavascriptIncludes`. `image_tag` and `link_to` are
  single interpolations, so they are functions.
- `test_instance.dfy` (module `TestInstance`): the test file's
  `url(p) = File.join("/path", p)`, and the test expectations that agree with
  the library as written.

## Model

| member | source | states |
|---|---|---|
| Strings.Join | lib/georgedrummond_sinatra_helpers.rb:13 | `join("\n")`: an empty array gives "", and a one-element array gives that element without a separator |
| Strings.JoinAppend | lib/georgedrummond_sinatra_helpers.rb:13 | joining `a + b` (both non-empty) is `join(a) + sep + join(b)` |
| Strings.SplitJoin | lib/georgedrummond_sinatra_helpers.rb:13 | for separator-free fields, splitting the join at the separator gives back exactly the fields, in order |
| Strings.Count | lib/georgedrummond_sinatra_helpers.rb:13 | the number of separators in a string is at most its length, and zero exactly when the separator does not occur |
| Strings.CountJoin | lib/georgedrummond_sinatra_helpers.rb:13 | joining n separator-free fields puts exactly n - 1 separators in the output |
| SinatraHelpers.StylesheetPath | lib/georgedrummond_sinatra_helpers.rb:10 | the path for a stylesheet starts with `/` and is 9 characters longer than the name (`/css/` and `.css`) |
| SinatraHelpers.StylesheetPathInjective | lib/georgedrummond_sinatra_helpers.rb:10 | different stylesheet names give different paths |
| SinatraHelpers.StylesheetTag | lib/georgedrummond_sinatra_helpers.rb:10-11 | one `<link>` element: the fixed opening `<link href="`, then `url("/css/" + name + ".css")` verbatim, then `" type="text/css" />` |
| SinatraHelpers.StylesheetTagNewlineFree | lib/georgedrummond_sinatra_helpers.rb:10-11 | a `<link>` element contains a newline only if `url` put one into the href |
| SinatraHelpers.StylesheetTagsNewlineFree | lib/georgedrummond_sinatra_helpers.rb:9-12 | if `url` adds no newline for any source, no tag in the `html` array contains a newline |
| SinatraHelpers.StylesheetTagsAppend | lib/georgedrummond_sinatra_helpers.rb:9-12 | the `html` array for `a + b` is the array for `a` followed by the array for `b` |
| SinatraHelpers.StylesheetTags | lib/georgedrummond_sinatra_helpers.rb:8-12 | the `html` array holds exactly one tag per source, and the i-th tag is the tag of the i-th source |
| SinatraHelpers.StylesheetLinks | lib/georgedrummond_sinatra_helpers.rb:7-14 | no sources give the empty string; one source gives its single tag, with no newline added |
| SinatraHelpers.StylesheetLinkTag | lib/georgedrummond_sinatra_helpers.rb:7-14 | the loop's result is the newline-join of the per-source tags, in argument order, and "" for no sources |
| SinatraHelpers.StylesheetLinksAppend | lib/georgedrummond_sinatra_helpers.rb:9-13 | for non-empty `a` and `b`, the output for `a + b` is the output for `a`, a newline, then the output for `b` |
| SinatraHelpers.StylesheetLinksFields | lib/georgedrummond_sinatra_helpers.rb:9-13 | if `url` adds no newline, splitting the output at newlines gives exactly the \|sources\| tags in order, and only \|sources\| - 1 newlines occur |
| SinatraHelpers.StylesheetLinksNonEmpty | lib/georgedrummond_sinatra_helpers.rb:7-14 | at least one source gives non-empty output |
| SinatraHelpers.StylesheetTagInjective | lib/georgedrummond_sinatra_helpers.rb:10-11 | if `url` maps different stylesheet paths to different results, different stylesheet names give different `<link>` elements |
| SinatraHelpers.StylesheetLinksInjective | lib/georgedrummond_sinatra_helpers.rb:7-14 | if `url` maps different stylesheet paths to different results and adds no newline, the output determines the source list |
| SinatraHelpers.JavascriptPath | lib/georgedrummond_sinatra_helpers.rb:19 | the path for a script starts with `/` and is 7 characters longer than the name (`/js/` and `.js`) |
| SinatraHelpers.JavascriptPathInjective | lib/georgedrummond_sinatra_helpers.rb:19 | different script names give different paths |
| SinatraHelpers.ScriptTag | lib/georgedrummond_sinatra_helpers.rb:19-20 | one `<script>` element: the fixed opening `<script type="text/javascript" src="`, then `url("/js/" + name + ".js")` verbatim, then `"></script>` |
| SinatraHelpers.ScriptTagNewlineFree | lib/georgedrummond_sinatra_helpers.rb:19-20 | a `<script>` element contains a newline only if `url` put one into the src |
| SinatraHelpers.ScriptTagsNewlineFree | lib/georgedrummond_sinatra_helpers.rb:18-21 | if `url` adds no newline for any source, no tag in the `html` array contains a newline |
| SinatraHelpers.ScriptTagsAppend | lib/georgedrummond_sinatra_helpers.rb:18-21 | the `html` array for `a + b` is the array for `a` followed by the array for `b` |
| SinatraHelpers.ScriptTags | lib/georgedrummond_sinatra_helpers.rb:17-21 | the `html` array holds exactly one tag per source, and the i-th tag is the tag of the i-th source |
| SinatraHelpers.JavascriptIncludes | lib/georgedrummond_sinatra_helpers.rb:16-23 | no sources give the empty string; one source gives its single tag, with no newline added |
| SinatraHelpers.JavascriptIncludeTag | lib/georgedrummond_sinatra_helpers.rb:16-23 | the loop's result is the newline-join of the per-source tags, in argument order, and "" for no sources |
| SinatraHelpers.JavascriptIncludesAppend | lib/georgedrummond_sinatra_helpers.rb:18-22 | for non-empty `a` and `b`, the output for `a + b` is the output for `a`, a newline, then the output for `b` |
| SinatraHelpers.JavascriptIncludesFields | lib/georgedrummond_sinatra_helpers.rb:18-22 | if `url` adds no newline, splitting the output at newlines gives exactly the \|sources\| tags in order, and only \|sources\| - 1 newlines occur |
| SinatraHelpers.JavascriptIncludesNonEmpty | lib/georgedrummond_sinatra_helpers.rb:16-23 | at least one source gives non-empty output |
| SinatraHelpers.ScriptTagInjective | lib/georgedrummond_sinatra_helpers.rb:19-20 | if `url` maps different script paths to different results, different script names give different `<script>` elements |
| SinatraHelpers.JavascriptIncludesInjective | lib/georgedrummond_sinatra_helpers.rb:16-23 | if `url` maps different script paths to different results and adds no newline, the output determines the source list |
| SinatraHelpers.ImagePath | lib/georgedrummond_sinatra_helpers.rb:26 | the path for an image starts with `/` and is the name after `/images/`, with no extension added |
| SinatraHelpers.ImagePathInjective | lib/georgedrummond_sinatra_helpers.rb:26 | different image names give different paths |
| SinatraHelpers.ImageTag | lib/georgedrummond_sinatra_helpers.rb:25-28 | the output is `<img src="`, then `url("/images/" + image)` verbatim, then `" />` and a newline; it always ends with a newline |
| SinatraHelpers.ImageTagInjective | lib/georgedrummond_sinatra_helpers.rb:25-28 | if `url` maps different image paths to different results, different image names give different `<img>` elements |
| SinatraHelpers.LinkTo | lib/georgedrummond_sinatra_helpers.rb:30-32 | the output is `<a href="`, then `url(path)` with the path passed unchanged, then `">`, the title verbatim and `</a>` |
| SinatraHelpers.LinkToTitleInjective | lib/georgedrummond_sinatra_helpers.rb:30-32 | for a fixed path, the anchor determines the title |
| SinatraHelpers.LinkToPathInjective | lib/georgedrummond_sinatra_helpers.rb:30-32 | for a fixed title and a `url` that maps different rooted paths to different results, the anchor determines a rooted path |
| TestInstance.TestUrl | spec/sinatra_helpers_spec.rb:5-7 | `File.join("/path", p)` for a path with at most one leading slash; a path that starts with `/` becomes `"/path" + p` |
| TestInstance.TestUrlRootedInjective | spec/sinatra_helpers_spec.rb:5-7 | the test `url` maps different rooted paths to different results |
| TestInstance.TestUrlStylesheetInjective | spec/sinatra_helpers_spec.rb:5-7 | the test `url` maps the paths of different stylesheet names to different results |
| TestInstance.TestUrlJavascriptInjective | spec/sinatra_helpers_spec.rb:5-7 | the test `url` maps the paths of different script names to different results |
| TestInstance.TestUrlImageInjective | spec/sinatra_helpers_spec.rb:5-7 | the test `url` maps the paths of different image names to different results |
| TestInstance.TestUrlStylesheetNewlineFree | spec/sinatra_helpers_spec.rb:5-7 | the test `url` puts no newline into the path of a stylesheet name that has none |
| TestInstance.TestUrlStylesheetsNewlineFree | spec/sinatra_helpers_spec.rb:5-7 | the same for every name in a list of sources |
| TestInstance.TestUrlStylesheetLinksInjective | lib/georgedrummond_sinatra_helpers.rb:7-14 | with the test `url`, lists of newline-free stylesheet names are recovered from the output of `stylesheet_link_tag` |
| TestInstance.TestUrlScriptNewlineFree | spec/sinatra_helpers_spec.rb:5-7 | the test `url` puts no newline into the path of a script name that has none |
| TestInstance.TestUrlScriptsNewlineFree | spec/sinatra_helpers_spec.rb:5-7 | the same for every name in a list of sources |
| TestInstance.TestUrlJavascriptIncludesInjective | lib/georgedrummond_sinatra_helpers.rb:16-23 | with the test `url`, lists of newline-free script names are recovered from the output of `javascript_include_tag` |
| TestInstance.LinkToHome | spec/sinatra_helpers_spec.rb:42 | `link_to("Home", "/home")` is `<a href="/path/home">Home</a>`, stated as the test file's literal |
| TestInstance.LinkToTitleUnescaped | lib/georgedrummond_sinatra_helpers.rb:31 | a title that contains markup is copied into the anchor unescaped |
| TestInstance.JavascriptIncludeApp | spec/sinatra_helpers_spec.rb:84 | `javascript_include_tag(:app)` is the test file's literal, one script tag for `/path/js/app.js` |
| TestInstance.JavascriptIncludeJquery | lib/georgedrummond_sinatra_helpers.rb:18-21 | `javascript_include_tag(:jquery)` is one script tag for `/path/js/jquery.js` |
| TestInstance.JavascriptIncludeJqueryApp | spec/sinatra_helpers_spec.rb:88 | `javascript_include_tag(:jquery, :app)` is the test file's literal: the jquery tag, a newline, then the app tag |
| TestInstance.ImageTagHome | lib/georgedrummond_sinatra_helpers.rb:25-28 | `image_tag("home.png")` is `<img src="/path/images/home.png" />` followed by a newline |

## Left out

- Sinatra's real `url()` helper, which depends on the request's base path. It is framework code that is not part of this model, so it is a parameter with no axioms.
- Ruby symbols as sources (`:app`): the string interpolation `"#{stylesheet}"` turns them into their names, so sources are modelled as strings.
- `require "georgedrummond_sinatra_helpers/version"` (lib/georgedrummond_sinatra_helpers.rb line 1): gem loading only.
- `File.join` in general, including its collapsing of repeated slashes. `TestUrl` covers only paths with at most one leading slash. Every path the helpers build starts with exactly one slash.
- Behaviour that the test file expects but the library does not implement. These tests disagree with the code, and the model follows the code:
  - option hashes for `link_to` and `image_tag` (spec/sinatra_helpers_spec.rb lines 46, 50, 60-64); the library's `link_to` and `image_tag` take no options;
  - external `http://` sources passed through unchanged (spec/sinatra_helpers_spec.rb lines 64, 78, 91); the library always prefixes `/css/`, `/js/` or `/images/` and calls `url`;
  - an external `link_to` target left as is (spec/sinatra_helpers_spec.rb line 50); the library adds no prefix and passes the path to `url` unchanged (lib/georgedrummond_sinatra_helpers.rb line 31), so the result is whatever `url` makes of it, and the test file's `url` would prepend `/path`;
  - `mail_to` and `gravatar_image` with MD5 hashing (spec/sinatra_helpers_spec.rb lines 11-37); neither helper exists in the library;
  - `rel="stylesheet"` on `<link>` (spec/sinatra_helpers_spec.rb lines 70-78); the library omits it;
  - `<img>` without a trailing newline (spec/sinatra_helpers_spec.rb line 56); the library appends `"\n"`, as `ImageTagHome` shows.
- Every `*Injective` and `*Fields` lemma in `SinatraHelpers` holds only under its stated hypotheses about `url`: that it maps the paths the builder makes (for `link_to`, rooted paths) to different results, and that it puts no newline into them. Without them the output need not determine the inputs. The test file's `url` meets both for newline-free names.
- Only `LinkToHome`, `JavascriptIncludeApp` and `JavascriptIncludeJqueryApp` state test-file literals (spec/sinatra_helpers_spec.rb lines 42, 84 and 88). The last two are written split where the library interpolates `url(path)`, because whole long literals make those proofs needlessly expensive. `LinkToTitleUnescaped`, `JavascriptIncludeJquery` and `ImageTagHome` state what the library outputs, in the same split form; no test makes those calls, except that `ImageTagHome` is the call on line 56, whose expected string lacks the trailing newline the library appends.
