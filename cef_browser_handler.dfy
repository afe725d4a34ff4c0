/** The browser client handler of the embedded browser
    (Plugins/WebBrowserExtension/Source/Private/CEF/CEFBrowserHandler.cpp): whether
    and how a popup window is created, the dev-tools and editing shortcuts, and the
    rewrite of requests whose content the host supplies itself. */
module CEFBrowserHandler {
  import opened Wrappers
  import opened AsciiText

  // ------------------------------------------------------------ colours

  /** A `cef_color_t`: 32 bits, alpha in the top byte, then red, green, blue. */
  type Color = bv32

  function ColorGetA(c: Color): bv8 { ((c >> 24) & 0xFF) as bv8 }
  function ColorGetR(c: Color): bv8 { ((c >> 16) & 0xFF) as bv8 }
  function ColorGetG(c: Color): bv8 { ((c >> 8) & 0xFF) as bv8 }
  function ColorGetB(c: Color): bv8 { (c & 0xFF) as bv8 }

  function ColorSetARGB(a: bv8, r: bv8, g: bv8, b: bv8): Color
  {
    (a as bv32 << 24) | (r as bv32 << 16) | (g as bv32 << 8) | b as bv32
  }

  /** Packing four channels and reading them back gives the channels. */
  lemma ColorChannelsRoundTrip(a: bv8, r: bv8, g: bv8, b: bv8)
    ensures ColorGetA(ColorSetARGB(a, r, g, b)) == a
    ensures ColorGetR(ColorSetARGB(a, r, g, b)) == r
    ensures ColorGetG(ColorSetARGB(a, r, g, b)) == g
    ensures ColorGetB(ColorSetARGB(a, r, g, b)) == b
  {
  }

  /** Reading the four channels of a colour and packing them gives the colour. */
  lemma ColorRepack(c: Color)
    ensures ColorSetARGB(ColorGetA(c), ColorGetR(c), ColorGetG(c), ColorGetB(c)) == c
  {
  }

  // ------------------------------------------------------------- popups

  const DevToolsMarker := "chrome-devtools"

  /** The delegates and the setting of a handler that decide about popups:
      `OnBeforePopup` (absent when unbound), whether `OnCreateWindow` is bound,
      and `bUseTransparency`. */
  datatype Handler = Handler(beforePopup: Option<(string, string) -> bool>, createWindowBound: bool, useTransparency: bool)

  /** Dev tools are never transparent; other pages follow the handler. */
  function ShouldUseTransparency(url: string, handlerTransparency: bool): (t: bool)
    ensures t <==> handlerTransparency && !ContainsIgnoreCase(url, DevToolsMarker)
  {
    if ContainsIgnoreCase(url, DevToolsMarker) then false else handlerTransparency
  }

  /** The popup's background: fully clear when transparent, otherwise the
      requested colour; red, green and blue are always kept. */
  function PopupBackground(useTransparency: bool, requested: Color): (c: Color)
    ensures ColorGetA(c) == if useTransparency then 0 else ColorGetA(requested)
    ensures ColorGetR(c) == ColorGetR(requested) && ColorGetG(c) == ColorGetG(requested) && ColorGetB(c) == ColorGetB(requested)
    ensures !useTransparency ==> c == requested
  {
    ColorRepack(requested);
    ColorChannelsRoundTrip(if useTransparency then 0 else ColorGetA(requested),
                           ColorGetR(requested), ColorGetG(requested), ColorGetB(requested));
    ColorSetARGB(if useTransparency then 0 else ColorGetA(requested),
                 ColorGetR(requested), ColorGetG(requested), ColorGetB(requested))
  }

  /** What `OnBeforePopup` decides: no window at all (it returns true), or an
      off-screen window whose new handler has the given transparency and whose
      settings have the given background (it returns false). */
  datatype PopupDecision = Suppress | CreateWindowless(useTransparency: bool, background: Color)

  /** Popups are suppressed when the `OnBeforePopup` delegate is bound and says so,
      or when nobody creates windows. */
  predicate PopupSuppressed(h: Handler, url: string, frameName: string)
  {
    (h.beforePopup.Some? && h.beforePopup.value(url, frameName)) || !h.createWindowBound
  }

  function OnBeforePopup(h: Handler, url: string, frameName: string, requested: Color): (d: PopupDecision)
    ensures d.Suppress? <==> PopupSuppressed(h, url, frameName)
    ensures d.CreateWindowless? ==> d.useTransparency == ShouldUseTransparency(url, h.useTransparency)
    ensures d.CreateWindowless? ==> d.background == PopupBackground(d.useTransparency, requested)
  {
    if PopupSuppressed(h, url, frameName) then Suppress
    else
      var transparent := ShouldUseTransparency(url, h.useTransparency);
      CreateWindowless(transparent, PopupBackground(transparent, requested))
  }

  /** A created popup is transparent exactly when the handler is and the address
      does not mention the dev tools, in any case; it is then fully clear. */
  lemma PopupTransparency(h: Handler, url: string, frameName: string, requested: Color)
    requires !PopupSuppressed(h, url, frameName)
    ensures OnBeforePopup(h, url, frameName, requested).useTransparency <==>
              h.useTransparency && !(exists i :: MatchesAt(url, DevToolsMarker, i))
    ensures OnBeforePopup(h, url, frameName, requested).useTransparency ==>
              ColorGetA(OnBeforePopup(h, url, frameName, requested).background) == 0
    ensures !OnBeforePopup(h, url, frameName, requested).useTransparency ==>
              OnBeforePopup(h, url, frameName, requested).background == requested
  {
    ContainsIgnoreCaseMeansWindow(url, DevToolsMarker);
  }

  const DevToolsUrl := "chrome-devtools://devtools/devtools.html"
  const DevToolsFrameName := "devtools"

  /** The dev tools' background: opaque white. */
  const DevToolsBackground: Color := 0xFFFF_FFFF

  /** The dev-tools window `ShowDevTools` opens: its transparency, its background,
      its frame rate and whether plugins are on. */
  datatype DevToolsWindow = DevToolsWindow(useTransparency: bool, background: Color, frameRate: nat, pluginsEnabled: bool)

  /** `ShowDevTools`: asks `OnBeforePopup` about the dev-tools page, with an opaque
      white background, 60 frames per second and plugins off, and opens the window
      unless the popup is suppressed. */
  function ShowDevTools(h: Handler): (w: Option<DevToolsWindow>)
    ensures w.Some? <==> !PopupSuppressed(h, DevToolsUrl, DevToolsFrameName)
  {
    match OnBeforePopup(h, DevToolsUrl, DevToolsFrameName, ColorSetARGB(255, 255, 255, 255))
    case Suppress => None
    case CreateWindowless(transparent, background) => Some(DevToolsWindow(transparent, background, 60, false))
  }

  /** The dev tools always open opaque and white, whatever the handler's
      transparency. */
  lemma DevToolsAreOpaqueWhite(h: Handler)
    requires ShowDevTools(h).Some?
    ensures !ShowDevTools(h).value.useTransparency
    ensures ShowDevTools(h).value.background == DevToolsBackground
    ensures ShowDevTools(h).value.frameRate == 60 && !ShowDevTools(h).value.pluginsEnabled
  {
    assert DevToolsUrl[..|DevToolsMarker|] == DevToolsMarker;
    ContainsPrefix(DevToolsUrl, DevToolsMarker);
  }

  // ----------------------------------------------------------- key events

  datatype KeyEventType = RawKeyDown | KeyDown | KeyUp | Char

  /** A `CefKeyEvent`: its type, its `cef_event_flags_t` modifiers and the character
      without modifiers applied. */
  datatype KeyEvent = KeyEvent(kind: KeyEventType, modifiers: bv32, unmodifiedCharacter: char)

  const ShiftDown: bv32 := 1 << 1
  const ControlDown: bv32 := 1 << 2
  const AltDown: bv32 := 1 << 3
  const CommandDown: bv32 := 1 << 7

  predicate IsKeyPress(e: KeyEvent)
  {
    e.kind == RawKeyDown || e.kind == KeyDown
  }

  /** Ctrl+Shift+I (Cmd+Shift+I on the Mac) with no other flag, when the shortcut is
      enabled. */
  predicate IsDevToolsShortcut(e: KeyEvent, isMac: bool, shortcutEnabled: bool)
  {
    && IsKeyPress(e)
    && e.modifiers == (if isMac then CommandDown | ShiftDown else ControlDown | ShiftDown)
    && (e.unmodifiedCharacter == 'i' || e.unmodifiedCharacter == 'I')
    && shortcutEnabled
  }

  /** The shortcut needs exactly its two modifiers: another one held, or one of
      them missing, and it is not the shortcut. */
  lemma DevToolsShortcutNeedsExactModifiers(e: KeyEvent, isMac: bool, shortcutEnabled: bool)
    ensures e.modifiers & AltDown != 0 ==> !IsDevToolsShortcut(e, isMac, shortcutEnabled)
    ensures e.modifiers & ShiftDown == 0 ==> !IsDevToolsShortcut(e, isMac, shortcutEnabled)
    ensures isMac && e.modifiers & ControlDown != 0 ==> !IsDevToolsShortcut(e, isMac, shortcutEnabled)
    ensures !isMac && e.modifiers & CommandDown != 0 ==> !IsDevToolsShortcut(e, isMac, shortcutEnabled)
  {
  }

  /** The editing commands the Mac build handles itself. */
  datatype EditCommand = SelectAll | Copy | Paste | Cut | Undo | Redo

  /** Cmd with a letter, without Ctrl or Alt, and without Shift unless the letter
      is `z`. */
  predicate IsMacEditChord(e: KeyEvent)
  {
    && IsKeyPress(e)
    && e.modifiers & CommandDown != 0
    && e.modifiers & ControlDown == 0
    && e.modifiers & AltDown == 0
    && (e.modifiers & ShiftDown == 0 || e.unmodifiedCharacter == 'z')
  }

  function MacEditCommand(e: KeyEvent): (r: Option<EditCommand>)
    ensures r.Some? ==> IsMacEditChord(e)
    ensures r == Some(Redo) <==> IsMacEditChord(e) && e.unmodifiedCharacter == 'z' && e.modifiers & ShiftDown != 0
  {
    if !IsMacEditChord(e) then None
    else match e.unmodifiedCharacter
      case 'a' => Some(SelectAll)
      case 'c' => Some(Copy)
      case 'v' => Some(Paste)
      case 'x' => Some(Cut)
      case 'z' => if e.modifiers & ShiftDown == 0 then Some(Undo) else Some(Redo)
      case _ => None
  }

  /** Shift only ever turns Cmd+Z into redo: with Shift, no other letter is an
      editing command. */
  lemma ShiftOnlyRedoes(e: KeyEvent)
    requires e.modifiers & ShiftDown != 0
    ensures MacEditCommand(e).Some? ==> MacEditCommand(e) == Some(Redo)
  {
  }

  /** What a key event leads to: the dev tools (and whether they opened), an edit
      command on the focused frame, or the browser window's own handling (`None`
      when there is no window). */
  datatype KeyOutcome = OpenDevTools(shown: bool) | Edit(command: EditCommand) | Forwarded(result: Option<bool>)

  /** `OnKeyEvent`. `unhandled` is what the browser window answers to
      `OnUnhandledKeyEvent`, or `None` when there is no window. */
  function OnKeyEvent(h: Handler, e: KeyEvent, isMac: bool, shortcutEnabled: bool, hasFocusedFrame: bool, unhandled: Option<bool>): (r: KeyOutcome)
    ensures IsDevToolsShortcut(e, isMac, shortcutEnabled) ==> r == OpenDevTools(ShowDevTools(h).Some?)
    ensures r.OpenDevTools? ==> IsDevToolsShortcut(e, isMac, shortcutEnabled)
    ensures r.Edit? ==> isMac && hasFocusedFrame && !IsDevToolsShortcut(e, isMac, shortcutEnabled) &&
                        MacEditCommand(e) == Some(r.command)
    ensures !IsDevToolsShortcut(e, isMac, shortcutEnabled) && isMac && hasFocusedFrame && MacEditCommand(e).Some? ==>
              r == Edit(MacEditCommand(e).value)
    ensures r.Forwarded? ==> r == Forwarded(unhandled)
  {
    if IsDevToolsShortcut(e, isMac, shortcutEnabled) then OpenDevTools(ShowDevTools(h).Some?)
    else if isMac && hasFocusedFrame && MacEditCommand(e).Some? then Edit(MacEditCommand(e).value)
    else Forwarded(unhandled)
  }

  /** The handler's return value: what it reports as handled. */
  function KeyHandled(r: KeyOutcome): bool
  {
    match r
    case OpenDevTools(shown) => shown
    case Edit(_) => true
    case Forwarded(result) => result == Some(true)
  }

  /** Away from the Mac no shortcut but the dev tools is handled here, and a key
      release is never handled here on any platform. */
  lemma KeyEventsForwarded(h: Handler, e: KeyEvent, isMac: bool, shortcutEnabled: bool, hasFocusedFrame: bool, unhandled: Option<bool>)
    ensures !isMac && !IsDevToolsShortcut(e, isMac, shortcutEnabled) ==>
              OnKeyEvent(h, e, isMac, shortcutEnabled, hasFocusedFrame, unhandled) == Forwarded(unhandled)
    ensures !IsKeyPress(e) ==> OnKeyEvent(h, e, isMac, shortcutEnabled, hasFocusedFrame, unhandled) == Forwarded(unhandled)
    ensures !IsKeyPress(e) ==> (KeyHandled(OnKeyEvent(h, e, isMac, shortcutEnabled, hasFocusedFrame, unhandled)) <==> unhandled == Some(true))
  {
  }

  // ------------------------------------------------------ request headers

  /** A `CefRequest::HeaderMap`, as the list of its entries; `find` returns the
      first entry with its key and `insert` adds an entry behind those. */
  type HeaderMap = seq<(string, string)>

  function FindHeader(h: HeaderMap, key: string): (r: Option<nat>)
    ensures r.Some? ==> r.value < |h| && h[r.value].0 == key && forall j :: 0 <= j < r.value ==> h[j].0 != key
    ensures r.None? <==> forall j :: 0 <= j < |h| ==> h[j].0 != key
  {
    if |h| == 0 then None
    else if h[0].0 == key then Some(0)
    else match FindHeader(h[1..], key)
      case None => None
      case Some(i) => Some(i + 1)
  }

  /** The first entry with the key is the one found. */
  lemma FindHeaderIsFirst(h: HeaderMap, key: string, i: nat)
    requires i < |h| && h[i].0 == key && forall j :: 0 <= j < i ==> h[j].0 != key
    ensures FindHeader(h, key) == Some(i)
  {
    assert h[i].0 == key;
  }

  function LookupHeader(h: HeaderMap, key: string): (r: Option<string>)
    ensures r.None? <==> forall j :: 0 <= j < |h| ==> h[j].0 != key
    ensures r.Some? ==> exists i :: 0 <= i < |h| && h[i] == (key, r.value) && forall j :: 0 <= j < i ==> h[j].0 != key
  {
    match FindHeader(h, key)
    case None => None
    case Some(i) => Some(h[i].1)
  }

  /** Sets the first entry with the key, or adds one when there is none. */
  function SetHeader(h: HeaderMap, key: string, value: string): (r: HeaderMap)
    ensures |r| == if FindHeader(h, key).Some? then |h| else |h| + 1
  {
    match FindHeader(h, key)
    case Some(i) => h[i := (key, value)]
    case None => h + [(key, value)]
  }

  /** Setting a header makes it found with the new value and leaves every other
      key's lookup as it was. */
  lemma {:induction false} SetHeaderLookup(h: HeaderMap, key: string, value: string, other: string)
    ensures LookupHeader(SetHeader(h, key, value), key) == Some(value)
    ensures other != key ==> LookupHeader(SetHeader(h, key, value), other) == LookupHeader(h, other)
  {
    var r := SetHeader(h, key, value);
    match FindHeader(h, key)
    case Some(i) =>
      FindHeaderIsFirst(r, key, i);
      if other != key {
        FindAfterChange(h, i, (key, value), other);
      }
    case None =>
      FindHeaderIsFirst(r, key, |h|);
      if other != key {
        FindAfterAppend(h, (key, value), other);
      }
  }

  lemma {:induction false} FindAfterChange(h: HeaderMap, i: nat, entry: (string, string), other: string)
    requires i < |h| && h[i].0 != other && entry.0 != other
    ensures FindHeader(h[i := entry], other) == FindHeader(h, other)
  {
    var r := h[i := entry];
    match FindHeader(h, other)
    case None =>
      assert forall j :: 0 <= j < |r| ==> r[j].0 != other;
    case Some(k) =>
      FindHeaderIsFirst(r, other, k);
  }

  lemma {:induction false} FindAfterAppend(h: HeaderMap, entry: (string, string), other: string)
    requires entry.0 != other
    ensures FindHeader(h + [entry], other) == FindHeader(h, other)
  {
    var r := h + [entry];
    match FindHeader(h, other)
    case None =>
      assert forall j :: 0 <= j < |r| ==> r[j].0 != other;
    case Some(k) =>
      FindHeaderIsFirst(r, other, k);
  }

  /** Inserting behind the existing entries leaves a key that is already present
      found with its old value. */
  lemma {:induction false} InsertKeepsFirst(h: HeaderMap, key: string, value: string)
    ensures LookupHeader(h, key).Some? ==> LookupHeader(h + [(key, value)], key) == LookupHeader(h, key)
    ensures LookupHeader(h, key).None? ==> LookupHeader(h + [(key, value)], key) == Some(value)
  {
    var r := h + [(key, value)];
    match FindHeader(h, key)
    case None =>
      FindHeaderIsFirst(r, key, |h|);
    case Some(k) =>
      FindHeaderIsFirst(r, key, k);
  }

  // ------------------------------------------------------- request content

  /** `ReplaceInline(c, "")`, case-sensitive: every occurrence of `c` removed. */
  function RemoveChar(s: string, c: char): (r: string)
    ensures c !in r && |r| <= |s|
    ensures forall x :: x != c ==> multiset(r)[x] == multiset(s)[x]
  {
    if |s| == 0 then []
    else
      assert s == [s[0]] + s[1..];
      if s[0] == c then RemoveChar(s[1..], c)
      else [s[0]] + RemoveChar(s[1..], c)
  }

  /** Removing a character keeps every other character, in order. */
  lemma {:induction false} RemoveCharOfConcat(s: string, t: string, c: char)
    ensures RemoveChar(s + t, c) == RemoveChar(s, c) + RemoveChar(t, c)
  {
    if |s| > 0 {
      assert (s + t)[1..] == s[1..] + t;
      RemoveCharOfConcat(s[1..], t, c);
    } else {
      assert s + t == t;
    }
  }

  /** Removing from a single character keeps it unless it is the one removed;
      with `RemoveCharOfConcat` this fixes the result: the other characters, in
      their order. */
  lemma RemoveCharOfOne(x: char, c: char)
    ensures RemoveChar([x], c) == if x == c then [] else [x]
  {
    assert [x][1..] == [];
  }

  /** A string without the character is left as it is. */
  lemma {:induction false} RemoveCharOfAbsent(s: string, c: char)
    requires c !in s
    ensures RemoveChar(s, c) == s
  {
    if |s| > 0 {
      RemoveCharOfAbsent(s[1..], c);
    }
  }

  /** The body a request is answered with: its line breaks removed. */
  function StripLineBreaks(s: string): (r: string)
    ensures '\n' !in r && '\r' !in r
    ensures forall x :: x != '\n' && x != '\r' ==> multiset(r)[x] == multiset(s)[x]
  {
    var noNewline := RemoveChar(s, '\n');
    var r := RemoveChar(noNewline, '\r');
    assert multiset(r)['\n'] == multiset(noNewline)['\n'] == 0;
    r
  }

  /** Text without line breaks goes through unchanged. */
  lemma StripLineBreaksKeepsText(s: string)
    requires '\n' !in s && '\r' !in s
    ensures StripLineBreaks(s) == s
  {
    RemoveCharOfAbsent(s, '\n');
    RemoveCharOfAbsent(s, '\r');
  }

  /** `find_last_of`: the index of the last occurrence. */
  function LastIndexOf(s: string, c: char): (r: Option<nat>)
    ensures r.Some? ==> r.value < |s| && s[r.value] == c && forall j :: r.value < j < |s| ==> s[j] != c
    ensures r.None? <==> c !in s
  {
    if |s| == 0 then None
    else if s[|s| - 1] == c then Some(|s| - 1)
    else
      var r := LastIndexOf(s[..|s| - 1], c);
      assert forall j :: 0 <= j < |s| - 1 ==> s[j] == s[..|s| - 1][j];
      r
  }

  /** The MIME type written as a hash on a dummy address: what follows the last
      `#`, if there is one. */
  function HashMimeType(url: string): (r: Option<string>)
    ensures r.None? <==> '#' !in url
    ensures r.Some? ==> && |r.value| < |url|
                        && url[|url| - |r.value| - 1] == '#'
                        && url[|url| - |r.value|..] == r.value
                        && '#' !in r.value
  {
    match LastIndexOf(url, '#')
    case None => None
    case Some(i) => Some(url[i + 1..])
  }

  /** An address with a hash gives back the MIME type behind the hash. */
  lemma HashMimeTypeRoundTrip(base: string, mime: string)
    requires '#' !in mime
    ensures HashMimeType(base + "#" + mime) == Some(mime)
  {
    var url := base + "#" + mime;
    assert url[|base|] == '#';
    assert forall j :: |base| < j < |url| ==> url[j] == mime[j - |base| - 1];
    assert LastIndexOf(url, '#') == Some(|base|);
    assert url[|base| + 1..] == mime;
  }

  /** An address without a hash gives no MIME type. */
  lemma HashMimeTypeAbsent(url: string)
    requires '#' !in url
    ensures HashMimeType(url) == None
  {
  }

  const LanguageHeader := "Accept-Language"
  const ContentTypeHeader := "Content-Type"
  const DefaultMimeType := "text/html"
  /** The method that tells `GetResourceHandler` to answer from the post data. */
  const CustomContentMethod := "X-GET-CUSTOM-CONTENT"

  /** What of a `CefRequest` the handler reads and writes; the post data is its
      list of elements. */
  datatype RequestState = RequestState(url: string, httpMethod: string, headers: HeaderMap, postData: Option<seq<string>>)

  /** What the task posted by `OnBeforeResourceLoad` does to a request, given the
      locale code and, when a browser window is alive, the content it supplies. */
  function AfterResourceLoadTask(r: RequestState, localeCode: string, windowValid: bool, contents: Option<string>): RequestState
  {
    var headers := SetHeader(r.headers, LanguageHeader, localeCode);
    if windowValid && contents.Some? then
      var withType := match HashMimeType(r.url)
        case None => headers
        case Some(mime) => headers + [(ContentTypeHeader, mime)];
      RequestState(r.url, CustomContentMethod, withType, Some([StripLineBreaks(contents.value)]))
    else
      RequestState(r.url, r.httpMethod, headers, r.postData)
  }

  /** A `CefRequest`, whose fields the task rewrites in place. */
  class Request {
    var Url: string
    var Method: string
    var Headers: HeaderMap
    var PostData: Option<seq<string>>

    constructor (url: string, httpMethod: string, headers: HeaderMap, postData: Option<seq<string>>)
      ensures State() == RequestState(url, httpMethod, headers, postData)
    {
      Url, Method, Headers, PostData := url, httpMethod, headers, postData;
    }

    function State(): RequestState
      reads this
    {
      RequestState(Url, Method, Headers, PostData)
    }

    /** The closure `OnBeforeResourceLoad` posts to the game thread: sets the
        language header; when there is content, makes it the post data without line
        breaks, adds a Content-Type from the address's hash and switches the method
        so that `GetResourceHandler` returns it; finally stores the headers. */
    method BeforeResourceLoadTask(localeCode: string, windowValid: bool, contents: Option<string>)
      modifies this
      ensures State() == AfterResourceLoadTask(old(State()), localeCode, windowValid, contents)
    {
      var headers := SetHeader(Headers, LanguageHeader, localeCode);
      if windowValid && contents.Some? {
        var body := RemoveChar(contents.value, '\n');
        body := RemoveChar(body, '\r');
        PostData := Some([body]);
        var hash := LastIndexOf(Url, '#');
        if hash.Some? {
          var mime := Url[hash.value + 1..];
          headers := headers + [(ContentTypeHeader, mime)];
        }
        Method := CustomContentMethod;
      }
      Headers := headers;
    }
  }

  /** The resource `GetResourceHandler` answers a request with: its first post-data
      element, with its MIME type. */
  datatype ByteResource = ByteResource(body: string, mimeType: string)

  /** Only custom-content requests with post data are answered from it; the MIME
      type is the Content-Type header's, `text/html` without one. */
  function GetResourceHandler(r: RequestState): (res: Option<ByteResource>)
    ensures res.Some? <==> r.httpMethod == CustomContentMethod && r.postData.Some? && |r.postData.value| > 0
    ensures res.Some? ==> res.value.body == r.postData.value[0]
    ensures res.Some? && LookupHeader(r.headers, ContentTypeHeader).Some? ==>
              res.value.mimeType == LookupHeader(r.headers, ContentTypeHeader).value
    ensures res.Some? && LookupHeader(r.headers, ContentTypeHeader).None? ==> res.value.mimeType == DefaultMimeType
  {
    if r.httpMethod == CustomContentMethod && r.postData.Some? && |r.postData.value| > 0 then
      var mime := match LookupHeader(r.headers, ContentTypeHeader)
        case None => DefaultMimeType
        case Some(m) => m;
      Some(ByteResource(r.postData.value[0], mime))
    else None
  }

  /** The MIME type a request with content is served with: a Content-Type the page
      already sent wins, then the hash of the address, then `text/html`. */
  function ServedMimeType(r: RequestState): string
  {
    match LookupHeader(r.headers, ContentTypeHeader)
    case Some(m) => m
    case None =>
      match HashMimeType(r.url)
      case Some(m) => m
      case None => DefaultMimeType
  }

  /** Content the host supplies is what the request is answered with: the body
      without line breaks, with the MIME type `ServedMimeType` gives, and the
      language header set to the locale. */
  lemma CustomContentIsServed(r: RequestState, localeCode: string, contents: string)
    ensures GetResourceHandler(AfterResourceLoadTask(r, localeCode, true, Some(contents))) ==
              Some(ByteResource(StripLineBreaks(contents), ServedMimeType(r)))
    ensures LookupHeader(AfterResourceLoadTask(r, localeCode, true, Some(contents)).headers, LanguageHeader) == Some(localeCode)
  {
    var headers := SetHeader(r.headers, LanguageHeader, localeCode);
    SetHeaderLookup(r.headers, LanguageHeader, localeCode, ContentTypeHeader);
    SetHeaderLookup(r.headers, LanguageHeader, localeCode, LanguageHeader);
    match HashMimeType(r.url)
    case None =>
    case Some(mime) =>
      InsertKeepsFirst(headers, ContentTypeHeader, mime);
      FindAfterAppend(headers, (ContentTypeHeader, mime), LanguageHeader);
  }

  /** With content, a Content-Type entry is added exactly when the address has a
      hash, behind the other entries and with the MIME type after the last hash;
      without a hash the Content-Type lookup is the one the page sent. */
  lemma ContentTypeFromHash(r: RequestState, localeCode: string, contents: string)
    ensures var after := AfterResourceLoadTask(r, localeCode, true, Some(contents));
            && after.httpMethod == CustomContentMethod
            && ('#' in r.url ==> |after.headers| > 0 && after.headers[|after.headers| - 1] ==
                                   (ContentTypeHeader, r.url[LastIndexOf(r.url, '#').value + 1..]))
            && ('#' !in r.url ==> LookupHeader(after.headers, ContentTypeHeader) == LookupHeader(r.headers, ContentTypeHeader))
  {
    SetHeaderLookup(r.headers, LanguageHeader, localeCode, ContentTypeHeader);
  }

  /** Without content the request keeps its method and post data, so it is answered
      as it would have been, and only its language header changes. */
  lemma NoContentLeavesRequest(r: RequestState, localeCode: string, windowValid: bool, contents: Option<string>)
    requires !(windowValid && contents.Some?)
    ensures GetResourceHandler(AfterResourceLoadTask(r, localeCode, windowValid, contents)).Some? ==
              GetResourceHandler(r).Some?
    ensures LookupHeader(AfterResourceLoadTask(r, localeCode, windowValid, contents).headers, LanguageHeader) == Some(localeCode)
    ensures forall k :: k != LanguageHeader ==>
              LookupHeader(AfterResourceLoadTask(r, localeCode, windowValid, contents).headers, k) == LookupHeader(r.headers, k)
  {
    forall k | k != LanguageHeader
      ensures LookupHeader(AfterResourceLoadTask(r, localeCode, windowValid, contents).headers, k) == LookupHeader(r.headers, k)
    {
      SetHeaderLookup(r.headers, LanguageHeader, localeCode, k);
    }
    SetHeaderLookup(r.headers, LanguageHeader, localeCode, LanguageHeader);
  }
}
