# OldAON core in Dafny

This project models and proves properties of four parts of the OldAON MOBA game
and its embedded-browser plugin.

- **The unit contract** (`BasicUnit`, `BuffList`, `Timeline`). A unit (`ABasicUnit`)
  has an action queue that is worked through from the front and a current action.
  It also has a buff list with a parallel list of remaining durations, and the
  lengths of the phases of its attacks and spells. The header only declares the
  queue and buff operations. Each one is modelled as a method of the `Unit` class
  that does what its comment states. `DropSelected`, `AddUniqueBuff`,
  `RemoveBuffByName` and `RemoveBuff` are proved against functions on sequences
  (`Drop`, `ReplaceNamed`), and lemmas about those functions prove what the
  comments promise; `PopAction`, `DoNothing`, `AddBuff` and `GetBuffByName` state
  their results directly. The two timing diagrams are modelled as timelines, and a
  unit's invariant says that its lengths keep the relations the diagrams draw. The
  lemmas prove that a nondecreasing attack counter causes the damage exactly once,
  at the end of the wind-up, and that a spell starts its cooldown exactly once, at
  the same boundary; both apply to every valid unit. Buff names are compared as
  `FString::operator==` compares them, ignoring the case of ASCII letters.
- **The game mode's action request** (`MOBAGameMode`). `ServerSetHeroAction`
  replaces a hero's whole queue with the one action, but only with authority and a
  valid hero. Its validation accepts everything.
- **The browser's JavaScript bridge** (`CefValues`, `CEFJSScripting`, `AsciiText`).
  CEF values are modelled as a datatype and dictionaries and lists as keyed
  containers, with the type-tag-preserving copy between them. The model also covers:
  - the registry of bound engine objects, whose consistency every bind and unbind keeps;
  - the argument checks of the release and execute messages, with round trips
    from request to message and back;
  - the parameter walk that binds call arguments to parameter names;
  - the case-insensitive dispatch of incoming messages;
  - the messages sent to the page, kept as an outbox in the order sent.
- **The browser handler's decisions** (`CEFBrowserHandler`). The model covers:
  - whether a popup is created, how transparent it is, and its background colour;
  - the dev-tools window;
  - the dev-tools shortcut and the Mac editing shortcuts;
  - the rewrite of custom-content requests: the Accept-Language upsert into the
    header multimap, removal of line breaks, the MIME type taken from the address's
    hash, and the custom method;
  - how `GetResourceHandler` answers such a request, with a lemma that chains the
    two steps together.

Engine services the core calls but whose code is not shown are inputs. These are
`GetBindingName` (the exposed name is a parameter), `FGuid::Parse` (a function
parameter), `GuidToPtr` (the `Objects` map), reflection (parameter lists, and the
serialised return value as a container parameter), the current locale, the browser
window's content and its key-event answer. `RetainBinding` and `ReleaseBinding`
are recorded as events in a log.

BasicUnit.h:128-130 only says that `AddBuff` adds a buff; the replacing operation
is the separately declared `AddUniqueBuff` (BasicUnit.h:136-138), so `AddBuff`
appends.

## Model

| member | source | states |
|---|---|---|
| BasicUnit.Unit.PopAction | Plugins/MOBA/Source/MOBA/Public/BasicUnit.h:105-106 | the finished front action is removed and the rest keep their order; an empty queue stays empty |
| BasicUnit.Unit.DoNothing | Plugins/MOBA/Source/MOBA/Public/BasicUnit.h:96-97 | afterwards nothing is queued and the current action is the idle action |
| BasicUnit.Unit.AddBuff | Plugins/MOBA/Source/MOBA/Public/BasicUnit.h:128-130 | the buff and its duration are appended to the two parallel lists, which stay parallel |
| BasicUnit.Unit.DropSelected | Plugins/MOBA/Source/MOBA/Public/BasicUnit.h:491-496 | the removal loop over the parallel buff and duration lists leaves exactly the unselected entries, in order |
| BasicUnit.Unit.AddUniqueBuff | Plugins/MOBA/Source/MOBA/Public/BasicUnit.h:136-138 | buffs whose names equal the new buff's name ignoring case are replaced: afterwards exactly one buff has that name and it is the new buff; unique names stay unique; the lists stay parallel |
| BasicUnit.Unit.RemoveBuffByName | Plugins/MOBA/Source/MOBA/Public/BasicUnit.h:140-142 | no buff whose name equals the given one ignoring case remains; the other entries are those that had another name; the lists stay parallel |
| BasicUnit.Unit.RemoveBuff | Plugins/MOBA/Source/MOBA/Public/BasicUnit.h:144-146 | the buff is no longer in the list; every other entry is kept |
| BasicUnit.Unit.GetBuffByName | Plugins/MOBA/Source/MOBA/Public/BasicUnit.h:132-134 | returns nothing exactly when no buff's name equals the given one ignoring case; otherwise returns the first buff whose name does |
| BasicUnit.Unit.AttackTimeline | Plugins/MOBA/Source/MOBA/Public/BasicUnit.h:350-376 | a valid unit's attack lengths form a well-formed attack timeline: the animation is the wind-up followed by the recovery and ends inside the attack time gap; its damage point is the wind-up length |
| BasicUnit.Unit.SpellTimeline | Plugins/MOBA/Source/MOBA/Public/BasicUnit.h:378-406 | a valid unit's spell lengths form a well-formed spell timeline: a waiting phase, then the animation made of wind-up and recovery; its cooldown starts at the waiting length plus the wind-up length |
| BasicUnit.Unit.AttackCausesDamageOnce | Plugins/MOBA/Source/MOBA/Public/BasicUnit.h:350-364 | on any valid unit, an attack counter that only grows from inside the wind-up to past it causes the damage exactly once |
| BasicUnit.Unit.SpellStartsCooldownOnce | Plugins/MOBA/Source/MOBA/Public/BasicUnit.h:378-390 | on any valid unit, a spell counter that only grows from before the end of the wind-up to past it starts the cooldown exactly once |
| BuffList.Drop | Plugins/MOBA/Source/MOBA/Public/BasicUnit.h:140-146 | removal keeps the two lists parallel and never lengthens them |
| BuffList.DropSnoc | Plugins/MOBA/Source/MOBA/Public/BasicUnit.h:491-496 | removing from lists that end in one more entry keeps that entry exactly when it is not selected |
| BuffList.DropRemovesSelected | Plugins/MOBA/Source/MOBA/Public/BasicUnit.h:140-146 | no selected buff survives a removal |
| BuffList.DropEntries | Plugins/MOBA/Source/MOBA/Public/BasicUnit.h:140-146 | an entry survives, with its own duration, exactly when it was present and is not selected |
| BuffList.HasEntrySnoc | Plugins/MOBA/Source/MOBA/Public/BasicUnit.h:491-496 | an entry is in the parallel lists extended by one entry exactly when it was in them or is the new entry |
| BuffList.DropNothingSelected | Plugins/MOBA/Source/MOBA/Public/BasicUnit.h:144-146 | when nothing is selected, both lists are left as they were |
| BuffList.DropIdempotent | Plugins/MOBA/Source/MOBA/Public/BasicUnit.h:140-146 | removing a second time removes nothing more |
| BuffList.DropKeepsUniqueNames | Plugins/MOBA/Source/MOBA/Public/BasicUnit.h:140-146 | a list whose names are unique keeps unique names after a removal |
| BuffList.CountNamedSnoc | Plugins/MOBA/Source/MOBA/Public/BasicUnit.h:136-138 | appending a buff adds one to its name's count and nothing to any other name's count |
| BuffList.CountNamedNone | Plugins/MOBA/Source/MOBA/Public/BasicUnit.h:136-138 | a list without the name counts zero buffs with it |
| BuffList.ReplaceNamed | Plugins/MOBA/Source/MOBA/Public/BasicUnit.h:136-138 | replacing keeps the two lists parallel |
| BuffList.ReplaceNamedLeavesOne | Plugins/MOBA/Source/MOBA/Public/BasicUnit.h:136-138 | after replacing, exactly one buff has the name, and it is the new buff with its duration |
| BuffList.ReplaceNamedKeepsOthers | Plugins/MOBA/Source/MOBA/Public/BasicUnit.h:136-138 | entries with other names are present after replacing exactly when they were present before |
| BuffList.ReplaceNamedKeepsUniqueNames | Plugins/MOBA/Source/MOBA/Public/BasicUnit.h:136-138 | replacing keeps a list whose names are unique unique |
| Timeline.Crossings | Plugins/MOBA/Source/MOBA/Public/BasicUnit.h:411-416 | there are no more crossings of a mark than counter samples |
| Timeline.NotReachedYet | Plugins/MOBA/Source/MOBA/Public/BasicUnit.h:411-416 | a counter that stays below a mark has not reached it |
| Timeline.ReachedExactlyOnce | Plugins/MOBA/Source/MOBA/Public/BasicUnit.h:411-416 | a nondecreasing counter that starts below a mark and ends at or past it reaches the mark on exactly one tick |
| Timeline.DamagePoint | Plugins/MOBA/Source/MOBA/Public/BasicUnit.h:350-364 | damage falls inside the animation, which fits in the attack time gap, and the recovery length remains after it |
| Timeline.AttackPhasesInOrder | Plugins/MOBA/Source/MOBA/Public/BasicUnit.h:350-364 | the attack phases follow the drawn order and never go back |
| Timeline.DamageAtEndOfWindUp | Plugins/MOBA/Source/MOBA/Public/BasicUnit.h:350-364 | a tick causes the damage exactly when it takes the counter out of the wind-up |
| Timeline.DamageCausedOnce | Plugins/MOBA/Source/MOBA/Public/BasicUnit.h:350-364 | over one attack, from inside the wind-up to past it, the damage is caused exactly once |
| Timeline.NoDamageDuringWindUp | Plugins/MOBA/Source/MOBA/Public/BasicUnit.h:350-364 | no damage is caused while the counter stays in the wind-up |
| Timeline.CooldownPoint | Plugins/MOBA/Source/MOBA/Public/BasicUnit.h:378-390 | the cooldown starts after the waiting phase, inside the animation, and the recovery length remains after it |
| Timeline.SpellPhasesInOrder | Plugins/MOBA/Source/MOBA/Public/BasicUnit.h:378-390 | the spell phases are waiting, wind-up, recovery, finished, in order, and never go back |
| Timeline.CooldownAtEndOfWindUp | Plugins/MOBA/Source/MOBA/Public/BasicUnit.h:378-390 | a tick starts the cooldown exactly when it takes the counter past the wind-up |
| Timeline.CooldownStartedOnce | Plugins/MOBA/Source/MOBA/Public/BasicUnit.h:378-390 | over one cast the cooldown starts exactly once |
| MOBAGameMode.ServerSetHeroActionValidate | Source/AON/MOBAGameMode.cpp:20-23 | every request is accepted |
| MOBAGameMode.QueueAfterSetHeroAction | Source/AON/MOBAGameMode.cpp:25-32 | the queue a hero has after the request, which `ServerSetHeroAction` is proved against; the three lemmas below state what it is |
| MOBAGameMode.SetHeroActionReplacesQueue | Source/AON/MOBAGameMode.cpp:28-32 | with authority and a valid hero the queue holds exactly the new action; no earlier action is kept |
| MOBAGameMode.SetHeroActionIgnoredWithoutAuthority | Source/AON/MOBAGameMode.cpp:28 | without authority, or for an invalid hero, the queue is unchanged |
| MOBAGameMode.SetHeroActionIdempotent | Source/AON/MOBAGameMode.cpp:30-31 | applying the same action twice leaves the queue that applying it once leaves |
| MOBAGameMode.ServerSetHeroAction | Source/AON/MOBAGameMode.cpp:25-33 | with authority and a valid hero the queue becomes `[action]`; otherwise the hero is unchanged; no field but `ActionQueue` is ever written |
| MOBAGameMode.ServerSetHeroActionTwice | Source/AON/MOBAGameMode.cpp:30-31 | two identical requests leave the queue one leaves, and the current action and buffs are untouched |
| CefValues.ListContainer | Plugins/WebBrowserExtension/Source/Private/CEF/CEFJSScripting.cpp:207-211 | a list is viewed as a container with the value at each index and no other key |
| CefValues.Set | Plugins/WebBrowserExtension/Source/Private/CEF/CEFJSScripting.cpp:25-40 | a setter succeeds exactly on a writable container, storing the value under the key; on failure nothing changes |
| CefValues.CopyContainerValue | Plugins/WebBrowserExtension/Source/Private/CEF/CEFJSScripting.cpp:21-45 | an invalid source fails and leaves the destination unchanged; otherwise the result is the setter's, which gives the destination key the source's tag and value; other keys and the read-only flag are kept |
| CefValues.CopyIntoWritable | Plugins/WebBrowserExtension/Source/Private/CEF/CEFJSScripting.cpp:23-43 | a copy into a writable container succeeds exactly when the source key holds a valid value |
| CefValues.CopyBackIsIdentity | Plugins/WebBrowserExtension/Source/Private/CEF/CEFJSScripting.cpp:21-45 | a successful copy, copied back to where it came from, leaves the source unchanged |
| AsciiText.ToLowerChar | Plugins/WebBrowserExtension/Source/Private/CEF/CEFJSScripting.cpp:86-90 | upper-case ASCII letters move to lower case and every other character is kept |
| AsciiText.ToLower | Plugins/WebBrowserExtension/Source/Private/CEF/CEFJSScripting.cpp:86-90 | lower-casing keeps the length and lower-cases every character |
| AsciiText.EqualsIgnoreCaseIsEquivalence | Plugins/WebBrowserExtension/Source/Private/CEF/CEFJSScripting.cpp:86-90 | the case-insensitive name comparison is reflexive, symmetric and transitive and only equates strings of equal length |
| AsciiText.ToLowerOfLowercase | Plugins/WebBrowserExtension/Source/Private/CEF/CEFJSScripting.cpp:86-90 | a name without upper-case letters is its own lower-case form |
| AsciiText.ContainsIgnoreCaseMeansWindow | Plugins/WebBrowserExtension/Source/Private/CEF/CEFBrowserHandler.cpp:164 | the case-insensitive search finds a word exactly when some window of the string matches it |
| AsciiText.ContainsPrefix | Plugins/WebBrowserExtension/Source/Private/CEF/CEFBrowserHandler.cpp:164 | a string that starts with the word, in any case, contains it |
| CEFJSScripting.MethodNames | Plugins/WebBrowserExtension/Source/Private/CEF/CEFJSScripting.cpp:67-73 | the method list holds each function's name at that function's index |
| CEFJSScripting.ConvertedObject | Plugins/WebBrowserExtension/Source/Private/CEF/CEFJSScripting.cpp:61-79 | the dictionary `ConvertObject` describes an object with; ConvertedObjectShape states its keys and values |
| CEFJSScripting.ConvertedObjectShape | Plugins/WebBrowserExtension/Source/Private/CEF/CEFJSScripting.cpp:61-79 | an object is described by exactly `$type` "uobject", `$id` its GUID digits, and `$methods` the names of its functions in order |
| CEFJSScripting.MessageKeysAreLowerCaseNames | Plugins/WebBrowserExtension/Source/Private/CEF/CEFJSScripting.cpp:86-90 | the dispatch keys match a message name exactly when it equals the message's name ignoring case; no name matches both |
| CEFJSScripting.ReleaseArgument | Plugins/WebBrowserExtension/Source/Private/CEF/CEFJSScripting.cpp:181-191 | a GUID is produced only from exactly one string argument, and it is what parsing that string gives; for exactly one string argument the result is whatever parsing it gives, so every spelling the parser accepts is accepted |
| CEFJSScripting.ReleaseArgumentRoundTrip | Plugins/WebBrowserExtension/Source/Private/CEF/CEFJSScripting.cpp:181-191 | a release message built from a GUID is accepted and names that GUID |
| CEFJSScripting.ReleaseArgumentRefusesShape | Plugins/WebBrowserExtension/Source/Private/CEF/CEFJSScripting.cpp:181-185 | any other count or type of arguments is refused |
| CEFJSScripting.ExecuteArguments | Plugins/WebBrowserExtension/Source/Private/CEF/CEFJSScripting.cpp:207-230 | a request is accepted exactly when there are four arguments typed string, string, string, list and both GUIDs parse; it carries the parsed GUIDs, the method name and the call arguments |
| CEFJSScripting.ExecuteArgumentsRoundTrip | Plugins/WebBrowserExtension/Source/Private/CEF/CEFJSScripting.cpp:207-230 | an execute message built from a request is accepted and gives back that request |
| CEFJSScripting.RegularCount | Plugins/WebBrowserExtension/Source/Private/CEF/CEFJSScripting.cpp:262-279 | no more call arguments are used than there are parameters |
| CEFJSScripting.Collect | Plugins/WebBrowserExtension/Source/Private/CEF/CEFJSScripting.cpp:256-282 | the named arguments stay writable and `CurrentArg` ends at the number of plain parameters |
| CEFJSScripting.CollectBindsArgument | Plugins/WebBrowserExtension/Source/Private/CEF/CEFJSScripting.cpp:259-282 | the k-th plain parameter receives the k-th call argument under its binding name, unless a later parameter reuses the name |
| CEFJSScripting.CollectBindsOnlyParameters | Plugins/WebBrowserExtension/Source/Private/CEF/CEFJSScripting.cpp:259-282 | the named arguments hold only binding names of plain parameters, never the return value or the promise |
| CEFJSScripting.CollectArguments | Plugins/WebBrowserExtension/Source/Private/CEF/CEFJSScripting.cpp:256-282 | the parameter loop with its `CurrentArg` counter computes the walk `Collect` defines, and uses one call argument per plain parameter |
| CEFJSScripting.FindFunction | Plugins/WebBrowserExtension/Source/Private/CEF/CEFJSScripting.cpp:240-246 | the function found is the object's first function with the name; none is found exactly when no function has the name |
| CEFJSScripting.FindIn | Plugins/WebBrowserExtension/Source/Private/CEF/CEFJSScripting.cpp:241 | the search over a function list finds the first function with the name, and finds none exactly when no function has it |
| CEFJSScripting.CallResults | Plugins/WebBrowserExtension/Source/Private/CEF/CEFJSScripting.cpp:303-318 | the result list is empty without a return parameter and otherwise holds one value exactly when the serialised return value is valid |
| CEFJSScripting.ExecuteOutcomeOf | Plugins/WebBrowserExtension/Source/Private/CEF/CEFJSScripting.cpp:203-246 | which of the four ways an execute message is answered; ExecuteOutcomeCases states when each happens |
| CEFJSScripting.ExecuteOutcomeCases | Plugins/WebBrowserExtension/Source/Private/CEF/CEFJSScripting.cpp:203-246 | only a malformed message is refused; an unknown object or function is answered on the message's own callback |
| CEFJSScripting.MapValues | Plugins/WebBrowserExtension/Source/Private/CEF/CEFJSScripting.cpp:108-111 | the loop over a map converts every value under its own key; the visit order lists every key exactly once, and the values visited are the values under those keys in that order |
| CEFJSScripting.RetainEvents | Plugins/WebBrowserExtension/Source/Private/CEF/CEFJSScripting.cpp:64 | one retain event per converted object, in order |
| CEFJSScripting.RetainsAppended | Plugins/WebBrowserExtension/Source/Private/CEF/CEFJSScripting.cpp:108-111 | converting the objects under a list of keys appends one retain event per key, for the object under that key, and keeps the earlier events |
| CEFJSScripting.PermanentBindKeepsRegistry | Plugins/WebBrowserExtension/Source/Private/CEF/CEFJSScripting.cpp:120-134 | binding an object that is not yet permanent under a free name keeps the name registry and the permanence flags consistent |
| CEFJSScripting.PermanentUnbindKeepsRegistry | Plugins/WebBrowserExtension/Source/Private/CEF/CEFJSScripting.cpp:151-158 | removing a permanent name together with its object's binding keeps the registry consistent |
| CEFJSScripting.JSScripting.SendProcessMessage | Plugins/WebBrowserExtension/Source/Private/CEF/CEFJSScripting.cpp:97-103 | a message is sent only while a browser is attached |
| CEFJSScripting.JSScripting.UnbindCefBrowser | Plugins/WebBrowserExtension/Source/Private/CEF/CEFJSScripting.cpp:324-327 | afterwards no browser is attached |
| CEFJSScripting.JSScripting.BindUObject | Plugins/WebBrowserExtension/Source/Private/CEF/CEFJSScripting.cpp:116-145 | the object is always retained. A permanent bind of an already permanent object, or under a taken name, changes neither map and sends nothing. Otherwise the name and the permanent flag are recorded before SetValue is sent. A non-permanent bind leaves the maps alone. The registry stays consistent |
| CEFJSScripting.JSScripting.UnbindUObject | Plugins/WebBrowserExtension/Source/Private/CEF/CEFJSScripting.cpp:147-175 | a permanent unbind never sends anything. It removes the name and the object's binding exactly when the name is bound to the given object, or no object is given. A non-permanent unbind sends DeleteValue with the object's GUID and leaves both maps alone |
| CEFJSScripting.JSScripting.GetPermanentBindings | Plugins/WebBrowserExtension/Source/Private/CEF/CEFJSScripting.cpp:105-113 | the result has one entry per permanent name, each the converted description of its object; the log gains exactly one retain event per permanent name, for the object under it, and keeps its earlier events |
| CEFJSScripting.JSScripting.HandleReleaseUObjectMessage | Plugins/WebBrowserExtension/Source/Private/CEF/CEFJSScripting.cpp:177-201 | succeeds exactly when the one string argument parses as the GUID of a known object, which is then released; otherwise nothing happens |
| CEFJSScripting.JSScripting.HandleExecuteUObjectMethodMessage | Plugins/WebBrowserExtension/Source/Private/CEF/CEFJSScripting.cpp:203-322 | a malformed message is refused and changes nothing. An unknown object or function gets its error text on the callback. Otherwise the function is called with the collected named arguments, and the result is sent to the callback unless the function takes a promise. Handled exactly when not refused. The effects by outcome are the predicate `ExecuteEffects` |
| CEFJSScripting.JSScripting.OnProcessMessageReceived | Plugins/WebBrowserExtension/Source/Private/CEF/CEFJSScripting.cpp:82-95 | the name, ignoring case, selects the execute or release handler; the result and every effect are that handler's (the execute effects by `ExecuteEffects`, a released object's log entry); any other message is refused and changes nothing |
| CEFBrowserHandler.ColorChannelsRoundTrip | Plugins/WebBrowserExtension/Source/Private/CEF/CEFBrowserHandler.cpp:166-170 | packing four channels and reading them back gives the channels |
| CEFBrowserHandler.ColorRepack | Plugins/WebBrowserExtension/Source/Private/CEF/CEFBrowserHandler.cpp:166-170 | reading a colour's channels and packing them gives the colour |
| CEFBrowserHandler.ShouldUseTransparency | Plugins/WebBrowserExtension/Source/Private/CEF/CEFBrowserHandler.cpp:164 | a popup is transparent exactly when the handler is and the address does not contain "chrome-devtools" in any case |
| CEFBrowserHandler.PopupBackground | Plugins/WebBrowserExtension/Source/Private/CEF/CEFBrowserHandler.cpp:166-170 | alpha becomes 0 with transparency and is kept otherwise; red, green and blue are always kept |
| CEFBrowserHandler.OnBeforePopup | Plugins/WebBrowserExtension/Source/Private/CEF/CEFBrowserHandler.cpp:140-187 | the popup is suppressed exactly when the bound BeforePopup delegate says so or no CreateWindow delegate is bound; otherwise its transparency and background follow the rules above |
| CEFBrowserHandler.PopupTransparency | Plugins/WebBrowserExtension/Source/Private/CEF/CEFBrowserHandler.cpp:164-170 | a created popup is transparent, and then fully clear, exactly when the handler is transparent and no window of the address matches the dev-tools marker; otherwise its background is the requested one |
| CEFBrowserHandler.ShowDevTools | Plugins/WebBrowserExtension/Source/Private/CEF/CEFBrowserHandler.cpp:473-509 | the dev tools open exactly when the popup decision for their page does not suppress them |
| CEFBrowserHandler.DevToolsAreOpaqueWhite | Plugins/WebBrowserExtension/Source/Private/CEF/CEFBrowserHandler.cpp:494-502 | opened dev tools are never transparent and are opaque white at 60 frames per second with plugins off |
| CEFBrowserHandler.DevToolsShortcutNeedsExactModifiers | Plugins/WebBrowserExtension/Source/Private/CEF/CEFBrowserHandler.cpp:516-524 | the shortcut needs exactly its two modifiers: Alt held, Shift missing, or the other platform's modifier held, and it does not fire |
| CEFBrowserHandler.MacEditCommand | Plugins/WebBrowserExtension/Source/Private/CEF/CEFBrowserHandler.cpp:531-565 | a command comes only from a chord of Cmd without Ctrl or Alt; it is redo exactly for Cmd+Shift+Z |
| CEFBrowserHandler.ShiftOnlyRedoes | Plugins/WebBrowserExtension/Source/Private/CEF/CEFBrowserHandler.cpp:535-563 | with Shift held, the only editing command is redo |
| CEFBrowserHandler.OnKeyEvent | Plugins/WebBrowserExtension/Source/Private/CEF/CEFBrowserHandler.cpp:511-576 | the dev tools open exactly on the shortcut, and it reports whether they opened; an edit command is chosen exactly on the Mac, with a focused frame, for an edit chord that is not the shortcut; everything else goes to the browser window, whose answer is kept |
| CEFBrowserHandler.IsDevToolsShortcut | Plugins/WebBrowserExtension/Source/Private/CEF/CEFBrowserHandler.cpp:516-520 | a key press of `i` or `I` with exactly Ctrl and Shift (Cmd and Shift on the Mac), when the shortcut is enabled; DevToolsShortcutNeedsExactModifiers states what it refuses |
| CEFBrowserHandler.KeyHandled | Plugins/WebBrowserExtension/Source/Private/CEF/CEFBrowserHandler.cpp:511-576 | what the handler returns for each outcome; KeyEventsForwarded states it for key releases |
| CEFBrowserHandler.KeyEventsForwarded | Plugins/WebBrowserExtension/Source/Private/CEF/CEFBrowserHandler.cpp:569-575 | away from the Mac every key except the shortcut goes to the browser window; key releases always do, and count as handled only when the window handles them |
| CEFBrowserHandler.FindHeader | Plugins/WebBrowserExtension/Source/Private/CEF/CEFBrowserHandler.cpp:350 | `find` returns the first entry with the key, and nothing exactly when no entry has it |
| CEFBrowserHandler.FindHeaderIsFirst | Plugins/WebBrowserExtension/Source/Private/CEF/CEFBrowserHandler.cpp:350 | the first entry with the key is the one `find` returns |
| CEFBrowserHandler.LookupHeader | Plugins/WebBrowserExtension/Source/Private/CEF/CEFBrowserHandler.cpp:437-441 | the value of the first entry with the key, and nothing exactly when no entry has it |
| CEFBrowserHandler.SetHeader | Plugins/WebBrowserExtension/Source/Private/CEF/CEFBrowserHandler.cpp:350-358 | an existing entry is overwritten and the map keeps its size; otherwise exactly one entry is inserted |
| CEFBrowserHandler.SetHeaderLookup | Plugins/WebBrowserExtension/Source/Private/CEF/CEFBrowserHandler.cpp:350-358 | after the upsert the key is found with the new value, and every other key's lookup is unchanged |
| CEFBrowserHandler.FindAfterChange | Plugins/WebBrowserExtension/Source/Private/CEF/CEFBrowserHandler.cpp:353 | overwriting an entry of another key does not change where a key is found |
| CEFBrowserHandler.FindAfterAppend | Plugins/WebBrowserExtension/Source/Private/CEF/CEFBrowserHandler.cpp:357 | inserting an entry of another key does not change where a key is found |
| CEFBrowserHandler.InsertKeepsFirst | Plugins/WebBrowserExtension/Source/Private/CEF/CEFBrowserHandler.cpp:384 | inserting a Content-Type does not replace an existing one; into a map without the key, the inserted value is found |
| CEFBrowserHandler.RemoveChar | Plugins/WebBrowserExtension/Source/Private/CEF/CEFBrowserHandler.cpp:367-368 | the character no longer occurs, and every other character occurs as often as before |
| CEFBrowserHandler.RemoveCharOfConcat | Plugins/WebBrowserExtension/Source/Private/CEF/CEFBrowserHandler.cpp:367-368 | removal distributes over concatenation, so the remaining characters keep their order |
| CEFBrowserHandler.RemoveCharOfOne | Plugins/WebBrowserExtension/Source/Private/CEF/CEFBrowserHandler.cpp:367-368 | a single character is dropped exactly when it is the one removed |
| CEFBrowserHandler.RemoveCharOfAbsent | Plugins/WebBrowserExtension/Source/Private/CEF/CEFBrowserHandler.cpp:367-368 | removing a character that does not occur changes nothing |
| CEFBrowserHandler.StripLineBreaks | Plugins/WebBrowserExtension/Source/Private/CEF/CEFBrowserHandler.cpp:367-368 | the content has no `\n` or `\r` afterwards, and every other character occurs as often as before |
| CEFBrowserHandler.StripLineBreaksKeepsText | Plugins/WebBrowserExtension/Source/Private/CEF/CEFBrowserHandler.cpp:367-368 | content without line breaks is unchanged |
| CEFBrowserHandler.LastIndexOf | Plugins/WebBrowserExtension/Source/Private/CEF/CEFBrowserHandler.cpp:380-381 | `find_last_of` gives the last occurrence of the character, and nothing exactly when it does not occur |
| CEFBrowserHandler.HashMimeType | Plugins/WebBrowserExtension/Source/Private/CEF/CEFBrowserHandler.cpp:379-384 | nothing exactly when the address has no `#`; otherwise the address's suffix behind a `#`, which itself holds no `#` |
| CEFBrowserHandler.HashMimeTypeRoundTrip | Plugins/WebBrowserExtension/Source/Private/CEF/CEFBrowserHandler.cpp:379-384 | an address ending in `#` and a MIME type gives back that MIME type |
| CEFBrowserHandler.HashMimeTypeAbsent | Plugins/WebBrowserExtension/Source/Private/CEF/CEFBrowserHandler.cpp:380-381 | an address without `#` gives no MIME type |
| CEFBrowserHandler.AfterResourceLoadTask | Plugins/WebBrowserExtension/Source/Private/CEF/CEFBrowserHandler.cpp:344-395 | the request the posted task leaves, which `BeforeResourceLoadTask` is proved against; CustomContentIsServed, ContentTypeFromHash and NoContentLeavesRequest state what it is |
| CEFBrowserHandler.Request.BeforeResourceLoadTask | Plugins/WebBrowserExtension/Source/Private/CEF/CEFBrowserHandler.cpp:344-395 | the in-place rewrite of the request leaves exactly the state `AfterResourceLoadTask` describes |
| CEFBrowserHandler.GetResourceHandler | Plugins/WebBrowserExtension/Source/Private/CEF/CEFBrowserHandler.cpp:428-453 | a resource is returned exactly for the custom method with at least one post-data element. Its body is the first element. Its MIME type is the first Content-Type header's value, and text/html when there is none |
| CEFBrowserHandler.ServedMimeType | Plugins/WebBrowserExtension/Source/Private/CEF/CEFBrowserHandler.cpp:379-449 | the MIME type content is served with: the page's Content-Type, else the hash's, else text/html; CustomContentIsServed proves the two steps give it |
| CEFBrowserHandler.CustomContentIsServed | Plugins/WebBrowserExtension/Source/Private/CEF/CEFBrowserHandler.cpp:362-449 | content the host supplies is served back: without line breaks, with the page's Content-Type, else the hash's MIME type, else text/html, and with the locale as Accept-Language |
| CEFBrowserHandler.ContentTypeFromHash | Plugins/WebBrowserExtension/Source/Private/CEF/CEFBrowserHandler.cpp:379-388 | with content, the method becomes the custom one; a Content-Type entry with the suffix after the last `#` is added behind the others when there is a `#`, and otherwise the Content-Type lookup is unchanged |
| CEFBrowserHandler.NoContentLeavesRequest | Plugins/WebBrowserExtension/Source/Private/CEF/CEFBrowserHandler.cpp:350-392 | without content the request keeps its method and post data, and of its headers only Accept-Language changes, to the locale |

## Left out

- The bodies of `DoAction_*`, `Tick`, `UseSkill`, `TriggerSkill`, `UpdateHPMPAS`,
  `Pickup` and `ThrowEquipment` are left out. BasicUnit.h declares them but does not
  define them, so no behaviour of theirs is modelled: stun, channelling, buff expiry,
  stat recomputation and damage.
- BasicUnit.Unit.AddBuff, AddUniqueBuff: each entry's initial duration is a
  parameter, because the shown source does not say where it comes from.
- HeroAction.h is not part of this model. The fields of `HeroAction` follow the
  action handlers BasicUnit.h declares.
- Timeline: timings are `real`. Floating-point rounding and the percentage queries
  are left out. The timelines state the relations the diagrams draw; the tick
  updates of the counters are not shown in the source.
- Replication, RPC specifiers and the static `localPC` are left out. Authority
  (`Role == ROLE_Authority`) is a boolean input. The engine's `IsValid` reads a
  pending-kill flag.
- Audio, effects and animation events are left out (`ServerPlayAttack`,
  `BP_PlayAttack`, `ServerShowDamageEffect`, particles).
- CefValues: doubles are `real`, and binary values are byte sequences. CEF's
  reference semantics for dictionaries and lists held by two containers are not
  modelled: a container is a value.
- CEFJSScripting.JSScripting.SendProcessMessage: the interprocess send is an
  append to the outbox.
- The engine's reflection is represented by values the caller supplies:
  `TFieldIterator`, `ProcessEvent`, `FStructSerializer` and `FStructDeserializer`.
  Parameters are listed in the function's value, and the serialised return
  dictionary is a parameter. The deserialisation of the named arguments into the
  parameter block is not modelled. Nor is the promise object stored in it.
- `GetBindingName`, `FGuid::Parse`, `GuidToPtr`, `RetainBinding` and
  `ReleaseBinding` are not defined in the shown source. The exposed name is a
  parameter, parsing is a function parameter, `GuidToPtr` is the `Objects` map,
  and retain and release are logged events. The reference counting they do is not
  modelled.
- CEFJSScripting.PtrToGuid: the null object has the all-zero GUID. The pointer
  hashing behind object GUIDs is not modelled; an object carries its GUID.
- CEFJSScripting.JSScripting.BindUObject: `BoundObjects[Object]` on an object
  without a binding is read as "not permanent". In the engine that lookup is TMap's
  checked `operator[]`, whose failure is not modelled.
- CEFJSScripting.JSScripting.UnbindUObject: an object is compared with the bound
  one as a value, not as a pointer.
- AsciiText: case-insensitive comparison is ASCII case folding only, not the
  engine's full character tables.
- `GetBindingName` on a function or a parameter (CEFJSScripting.cpp:72, :277 and
  :317) is read as the name the model gives it: `UFunction.name` and `Param.name`
  are already the binding names. The renaming rules behind `GetBindingName` are
  not modelled.
- BasicUnit.Unit.Valid: the diagram relations between the attack and spell lengths
  are a class invariant the constructor establishes and no modelled operation
  touches. In the engine these properties are editable from the editor and from
  Blueprints, which the model does not capture. The buff operations need only the
  buff half of the invariant (`BuffsParallel`) and keep `Valid` when it held before.
- CEFJSScripting.FindFunction: the `FName` comparison there is case-insensitive in
  the engine, but the model matches names exactly. Exposed names in
  `PermanentUObjectsByName` are also compared exactly, although TMap's `FString`
  keys ignore case.
- CEFJSScripting.JSScripting.OnProcessMessageReceived: the conversion of CEF strings
  to `FString` is the identity. UTF-8 and wide-character conversions are left out.
- `InvokeJSFunction` with an `FEWebJSParam` array and `ConvertStruct` are left out,
  because their conversion happens through the serialiser. The result message that
  `InvokeJSFunction` builds is modelled.
- CEFBrowserHandler.OnBeforePopup: creating the new handler, storing the popup
  features and the window-info call are left out. So is the Linux-only
  transparency argument of `SetAsWindowless`. The frame name is only passed to the
  delegate.
- CEFBrowserHandler.OnKeyEvent: the Mac frame calls are represented by the command
  chosen. Whether the build is for the Mac, whether the shortcut is enabled, whether
  a frame has focus, and the browser window's answer are inputs.
- CEFBrowserHandler.Request.BeforeResourceLoadTask: the hop to the game thread
  (`CefPostTask`), `RV_CONTINUE_ASYNC` and `Callback->Continue` are left out, as is
  the UTF-8 encoding of the post data. Content is held as text; the locale code and
  the window's content are inputs.
- CEFBrowserHandler.HeaderMap: CEF's header map is a multimap ordered by key. The
  model keeps its entries in insertion order. That order decides only which entry
  `find` returns for a key, and the model returns the first one inserted.
- The rest of CEFBrowserHandler.cpp (certificate errors, JS dialogs, render-process
  termination, browse and close events, display metrics) is left out, as are
  ESWebBrowserView.cpp, SkillSplineActor.h, SkillHintActor.h, MOBAGameMode.h,
  `InitGame` and the build files.
