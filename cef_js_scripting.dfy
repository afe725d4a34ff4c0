/** The JavaScript bridge of the embedded browser
    (Plugins/WebBrowserExtension/Source/Private/CEF/CEFJSScripting.cpp): the
    registry of engine objects bound into pages, the check and dispatch of the
    messages pages send back, and the messages sent to the page. What the engine's
    reflection does (listing an object's functions, calling one, serialising its
    result) is represented by values the caller supplies. */
module CEFJSScripting {
  import opened Wrappers
  import opened CefValues
  import opened AsciiText

  /** An `FGuid`, through the 32-digit text it prints as (`EGuidFormats::Digits`). */
  datatype Guid = Guid(digits: string)

  /** A property of a reflected function: its binding name, and whether it is a
      parameter at all (`CPF_Parm`), the return value (`CPF_ReturnParm`) or a
      promise (a struct derived from `FEWebJSResponse`). */
  datatype Param = Param(name: string, isParm: bool, isReturnParm: bool, isPromise: bool)

  datatype UFunction = UFunction(name: string, paramsSize: nat, params: seq<Param>)

  /** An engine object: the GUID it is known by in pages and the functions of its
      class. */
  datatype UObject = UObject(guid: Guid, functions: seq<UFunction>)

  /** What `BoundObjects` stores per object: permanence and a reference count. */
  datatype ObjectBinding = ObjectBinding(isPermanent: bool, refcount: int)

  /** A process message: its name and argument list. */
  datatype ProcessMessage = ProcessMessage(name: string, args: seq<Value>)

  /** A call of the binding bookkeeping helpers, which are not modelled further. */
  datatype BindingEvent = Retained(obj: UObject) | Released(obj: UObject)

  /** A call of a reflected function (`ProcessEvent`), with the named arguments it
      was given. */
  datatype Invocation = Invocation(obj: UObject, fn: UFunction, namedArgs: Container, hasPromise: bool)

  const ExecuteUObjectMethodName := "UE::ExecuteUObjectMethod"
  const ReleaseUObjectName := "UE::ReleaseUObject"
  /** The two message names as `FString` compares them: lower-cased. */
  const ExecuteUObjectMethodKey := "ue::executeuobjectmethod"
  const ReleaseUObjectKey := "ue::releaseuobject"
  const SetValueName := "UE::SetValue"
  const DeleteValueName := "UE::DeleteValue"
  const ExecuteJSFunctionName := "UE::ExecuteJSFunction"
  const UnknownObjectError := "Unknown UObject ID"
  const UnknownFunctionError := "Unknown UObject Function"

  /** `PtrToGuid`: an object's GUID; the null object has the all-zero GUID. */
  function PtrToGuid(obj: Option<UObject>): Guid
  {
    if obj.Some? then obj.value.guid else Guid("00000000000000000000000000000000")
  }

  function MethodNames(fs: seq<UFunction>): (r: seq<Value>)
    ensures |r| == |fs| && forall i :: 0 <= i < |fs| ==> r[i] == String(fs[i].name)
  {
    if |fs| == 0 then [] else [String(fs[0].name)] + MethodNames(fs[1..])
  }

  /** The dictionary `ConvertObject` describes an object with. */
  function ConvertedObject(obj: UObject): Value
  {
    Dictionary(map["$type" := String("uobject"), "$id" := String(obj.guid.digits),
                   "$methods" := List(MethodNames(obj.functions))])
  }

  /** An object is described by its type tag "uobject", its GUID digits, and the
      names of its functions in order. */
  lemma ConvertedObjectShape(obj: UObject)
    ensures ConvertedObject(obj).Dictionary?
    ensures ConvertedObject(obj).entries.Keys == {"$type", "$id", "$methods"}
    ensures ConvertedObject(obj).entries["$type"] == String("uobject")
    ensures ConvertedObject(obj).entries["$id"] == String(obj.guid.digits)
    ensures ConvertedObject(obj).entries["$methods"] == List(MethodNames(obj.functions))
    ensures |ConvertedObject(obj).entries["$methods"].items| == |obj.functions|
  {
  }

  function SetValueMessage(name: string, converted: Value, permanent: bool): ProcessMessage
  {
    ProcessMessage(SetValueName, [Dictionary(map["name" := String(name), "value" := converted, "permanent" := Bool(permanent)])])
  }

  function DeleteValueMessage(name: string, id: Guid, permanent: bool): ProcessMessage
  {
    ProcessMessage(DeleteValueName, [Dictionary(map["name" := String(name), "id" := String(id.digits), "permanent" := Bool(permanent)])])
  }

  function ExecuteJSFunctionMessage(callback: Guid, args: seq<Value>, isError: bool): ProcessMessage
  {
    ProcessMessage(ExecuteJSFunctionName, [String(callback.digits), List(args), Bool(isError)])
  }

  /** `InvokeJSErrorResult`: the callback is called with the error text, as an error. */
  function ErrorResultMessage(callback: Guid, error: string): ProcessMessage
  {
    ExecuteJSFunctionMessage(callback, [String(error)], true)
  }

  /** A message is recognised under its name in any case, and the two names stay
      apart in every case. */
  lemma MessageKeysAreLowerCaseNames(name: string)
    ensures ToLower(name) == ExecuteUObjectMethodKey <==> EqualsIgnoreCase(name, ExecuteUObjectMethodName)
    ensures ToLower(name) == ReleaseUObjectKey <==> EqualsIgnoreCase(name, ReleaseUObjectName)
    ensures !(ToLower(name) == ExecuteUObjectMethodKey && ToLower(name) == ReleaseUObjectKey)
  {
    assert ToLower(ExecuteUObjectMethodName) == ExecuteUObjectMethodKey;
    assert ToLower(ReleaseUObjectName) == ReleaseUObjectKey;
  }

  // ------------------------------------------------------ message arguments

  /** The object a release message names: one string argument that parses as a
      GUID. `parse` stands for `FGuid::Parse`. */
  function ReleaseArgument(args: seq<Value>, parse: string -> Option<Guid>): (r: Option<Guid>)
    ensures r.Some? ==> |args| == 1 && TagOf(args[0]) == VTypeString && parse(args[0].s) == r
    ensures |args| == 1 && args[0].String? ==> r == parse(args[0].s)
  {
    if |args| != 1 || GetType(ListContainer(args), Index(0)) != VTypeString then None
    else parse(args[0].s)
  }

  /** The argument list a page sends to release an object. */
  function ReleaseMessageArguments(key: Guid): seq<Value>
  {
    [String(key.digits)]
  }

  /** A release message built from a GUID is accepted and names that GUID. */
  lemma ReleaseArgumentRoundTrip(key: Guid, parse: string -> Option<Guid>)
    requires parse(key.digits) == Some(key)
    ensures ReleaseArgument(ReleaseMessageArguments(key), parse) == Some(key)
  {
    assert GetType(ListContainer(ReleaseMessageArguments(key)), Index(0)) == VTypeString;
  }

  /** A release message of any other count or type is refused. */
  lemma ReleaseArgumentRefusesShape(args: seq<Value>, parse: string -> Option<Guid>)
    requires |args| != 1 || TagOf(args[0]) != VTypeString
    ensures ReleaseArgument(args, parse) == None
  {
  }

  /** What an execute message asks for: the object, the method name, the callback
      that receives the result, and the call's arguments. */
  datatype ExecuteRequest = ExecuteRequest(objectKey: Guid, methodName: string, callback: Guid, callArgs: seq<Value>)

  predicate ExecuteShape(args: seq<Value>)
  {
    && |args| == 4
    && GetType(ListContainer(args), Index(0)) == VTypeString
    && GetType(ListContainer(args), Index(1)) == VTypeString
    && GetType(ListContainer(args), Index(2)) == VTypeString
    && GetType(ListContainer(args), Index(3)) == VTypeList
  }

  /** The request an execute message carries: exactly four arguments typed string,
      string, string, list, whose first and third parse as GUIDs. */
  function ExecuteArguments(args: seq<Value>, parse: string -> Option<Guid>): (r: Option<ExecuteRequest>)
    ensures r.Some? <==> ExecuteShape(args) && parse(args[0].s).Some? && parse(args[2].s).Some?
    ensures r.Some? ==> r == Some(ExecuteRequest(parse(args[0].s).value, args[1].s, parse(args[2].s).value, args[3].items))
  {
    if !ExecuteShape(args) then None
    else match parse(args[0].s)
      case None => None
      case Some(key) =>
        match parse(args[2].s)
        case None => None
        case Some(callback) => Some(ExecuteRequest(key, args[1].s, callback, args[3].items))
  }

  /** The argument list a page sends to call a method. */
  function ExecuteMessageArguments(req: ExecuteRequest): seq<Value>
  {
    [String(req.objectKey.digits), String(req.methodName), String(req.callback.digits), List(req.callArgs)]
  }

  /** An execute message built from a request is accepted and yields that request. */
  lemma ExecuteArgumentsRoundTrip(req: ExecuteRequest, parse: string -> Option<Guid>)
    requires parse(req.objectKey.digits) == Some(req.objectKey)
    requires parse(req.callback.digits) == Some(req.callback)
    ensures ExecuteArguments(ExecuteMessageArguments(req), parse) == Some(req)
  {
    var args := ExecuteMessageArguments(req);
    assert GetType(ListContainer(args), Index(0)) == VTypeString;
    assert GetType(ListContainer(args), Index(1)) == VTypeString;
    assert GetType(ListContainer(args), Index(2)) == VTypeString;
    assert GetType(ListContainer(args), Index(3)) == VTypeList;
  }

  // ------------------------------------------------------ argument binding

  predicate IsRegular(p: Param)
  {
    p.isParm && !p.isReturnParm && !p.isPromise
  }

  function RegularCount(ps: seq<Param>): (n: nat)
    ensures n <= |ps|
  {
    if |ps| == 0 then 0 else RegularCount(ps[..|ps| - 1]) + (if IsRegular(ps[|ps| - 1]) then 1 else 0)
  }

  /** The state of the parameter walk: the named arguments so far, the index of the
      next call argument (`CurrentArg`), and the return and promise parameters. */
  datatype Collected = Collected(named: Container, currentArg: nat, returnParam: Option<Param>, promiseParam: Option<Param>)

  const NothingCollected := Collected(EmptyContainer, 0, None, None)

  /** One parameter of the walk: the return value and the promise are remembered,
      any other parameter takes the next call argument under its binding name. */
  function CollectStep(c: Collected, p: Param, cefArgs: Container): Collected
  {
    if !p.isParm then c
    else if p.isReturnParm then c.(returnParam := Some(p))
    else if p.isPromise then c.(promiseParam := Some(p))
    else c.(named := CopyContainerValue(c.named, cefArgs, Name(p.name), Index(c.currentArg)).1,
            currentArg := c.currentArg + 1)
  }

  /** The walk over the parameters `ps`, in order. */
  function Collect(ps: seq<Param>, cefArgs: Container): (c: Collected)
    ensures !c.named.readOnly
    ensures c.currentArg == RegularCount(ps)
  {
    if |ps| == 0 then NothingCollected
    else CollectStep(Collect(ps[..|ps| - 1], cefArgs), ps[|ps| - 1], cefArgs)
  }

  /** The k-th plain parameter receives the k-th call argument, when there is one
      and no later plain parameter has the same binding name. */
  lemma {:induction false} CollectBindsArgument(ps: seq<Param>, items: seq<Value>, j: nat)
    requires j < |ps| && IsRegular(ps[j])
    requires RegularCount(ps[..j]) < |items| && TagOf(items[RegularCount(ps[..j])]) != VTypeInvalid
    requires forall i :: j < i < |ps| && IsRegular(ps[i]) ==> ps[i].name != ps[j].name
    ensures Name(ps[j].name) in Collect(ps, ListContainer(items)).named.entries
    ensures Collect(ps, ListContainer(items)).named.entries[Name(ps[j].name)] == items[RegularCount(ps[..j])]
    decreases |ps|
  {
    var n := |ps| - 1;
    var prefix := ps[..n];
    if j == n {
      assert prefix == ps[..j];
    } else {
      assert prefix[..j] == ps[..j];
      CollectBindsArgument(prefix, items, j);
    }
  }

  /** Parameters without a call argument stay unbound: the named arguments only
      ever hold the binding names of plain parameters. */
  lemma {:induction false} CollectBindsOnlyParameters(ps: seq<Param>, cefArgs: Container, k: Key)
    requires k in Collect(ps, cefArgs).named.entries
    ensures exists i :: 0 <= i < |ps| && IsRegular(ps[i]) && k == Name(ps[i].name)
    decreases |ps|
  {
    var n := |ps| - 1;
    var prefix := ps[..n];
    var before := Collect(prefix, cefArgs);
    if k in before.named.entries {
      CollectBindsOnlyParameters(prefix, cefArgs, k);
      var i :| 0 <= i < |prefix| && IsRegular(prefix[i]) && k == Name(prefix[i].name);
      assert ps[i] == prefix[i];
    } else {
      assert IsRegular(ps[n]) && k == Name(ps[n].name);
    }
  }

  /** The parameter walk of `HandleExecuteUObjectMethodMessage`: copies each call
      argument to the named arguments under its parameter's binding name, counting
      the call arguments used in `currentArg`. */
  method CollectArguments(params: seq<Param>, cefArgs: Container)
      returns (named: Container, returnParam: Option<Param>, promiseParam: Option<Param>)
    ensures Collected(named, RegularCount(params), returnParam, promiseParam) == Collect(params, cefArgs)
  {
    named, returnParam, promiseParam := EmptyContainer, None, None;
    var currentArg := 0;
    var i := 0;
    while i < |params|
      invariant 0 <= i <= |params|
      invariant Collected(named, currentArg, returnParam, promiseParam) == Collect(params[..i], cefArgs)
    {
      assert params[..i + 1][..i] == params[..i];
      var param := params[i];
      if param.isParm {
        if param.isReturnParm {
          returnParam := Some(param);
        } else if param.isPromise {
          promiseParam := Some(param);
        } else {
          var copied := CopyContainerValue(named, cefArgs, Name(param.name), Index(currentArg));
          named := copied.1;
          currentArg := currentArg + 1;
        }
      }
      i := i + 1;
    }
    assert params[..i] == params;
  }

  /** `FindFunction`: the first function of the object with the given name. */
  function FindFunction(obj: UObject, name: string): (r: Option<UFunction>)
    ensures r.Some? ==> exists i :: 0 <= i < |obj.functions| && obj.functions[i] == r.value && r.value.name == name &&
                                    forall j :: 0 <= j < i ==> obj.functions[j].name != name
    ensures r.None? <==> forall i :: 0 <= i < |obj.functions| ==> obj.functions[i].name != name
  {
    FindIn(obj.functions, name)
  }

  function FindIn(fs: seq<UFunction>, name: string): (r: Option<UFunction>)
    ensures r.Some? ==> exists i :: 0 <= i < |fs| && fs[i] == r.value && r.value.name == name &&
                                    forall j :: 0 <= j < i ==> fs[j].name != name
    ensures r.None? <==> forall i :: 0 <= i < |fs| ==> fs[i].name != name
  {
    if |fs| == 0 then None
    else if fs[0].name == name then Some(fs[0])
    else
      var r := FindIn(fs[1..], name);
      assert forall i :: 1 <= i < |fs| ==> fs[i] == fs[1..][i - 1];
      if r.Some? then
        var i :| 0 <= i < |fs[1..]| && fs[1..][i] == r.value && r.value.name == name &&
                 forall j :: 0 <= j < i ==> fs[1..][j].name != name;
        assert fs[i + 1] == r.value;
        assert forall j :: 0 <= j < i + 1 ==> fs[j].name != name;
        r
      else r
  }

  /** The result list sent back after a call: the serialised return value when the
      function has one and it is valid, otherwise nothing. `serialised` stands for the
      dictionary the serialiser produced from the call's parameters. */
  function CallResults(returnParam: Option<Param>, serialised: Container): (r: seq<Value>)
    ensures |r| <= 1
    ensures returnParam.None? ==> r == []
    ensures returnParam.Some? ==> (|r| == 1 <==> GetType(serialised, Name(returnParam.value.name)) != VTypeInvalid)
  {
    if returnParam.None? then []
    else
      var results := CopyContainerValue(EmptyContainer, serialised, Index(0), Name(returnParam.value.name)).1;
      if Index(0) in results.entries then [results.entries[Index(0)]] else []
  }

  /** How an execute message is answered. */
  datatype ExecuteOutcome =
    | Refused
    | UnknownObject(callback: Guid)
    | UnknownFunction(callback: Guid)
    | Call(obj: UObject, fn: UFunction, callback: Guid)

  function ExecuteOutcomeOf(args: seq<Value>, parse: string -> Option<Guid>, objects: map<Guid, UObject>): (r: ExecuteOutcome)
  {
    match ExecuteArguments(args, parse)
    case None => Refused
    case Some(req) =>
      if req.objectKey !in objects then UnknownObject(req.callback)
      else match FindFunction(objects[req.objectKey], req.methodName)
        case None => UnknownFunction(req.callback)
        case Some(f) => Call(objects[req.objectKey], f, req.callback)
  }

  /** A well-shaped message for an unknown object or function is answered with an
      error to its own callback; only a malformed message is refused. */
  lemma ExecuteOutcomeCases(args: seq<Value>, parse: string -> Option<Guid>, objects: map<Guid, UObject>)
    ensures ExecuteOutcomeOf(args, parse, objects).Refused? <==> ExecuteArguments(args, parse).None?
    ensures ExecuteOutcomeOf(args, parse, objects).UnknownObject? <==>
              ExecuteArguments(args, parse).Some? && ExecuteArguments(args, parse).value.objectKey !in objects
    ensures ExecuteOutcomeOf(args, parse, objects).UnknownFunction? ==>
              ExecuteArguments(args, parse).Some? && ExecuteArguments(args, parse).value.objectKey in objects &&
              forall f :: f in objects[ExecuteArguments(args, parse).value.objectKey].functions ==>
                f.name != ExecuteArguments(args, parse).value.methodName
    ensures !ExecuteOutcomeOf(args, parse, objects).Refused? ==>
              ExecuteOutcomeOf(args, parse, objects).callback == ExecuteArguments(args, parse).value.callback
  {
  }

  lemma MapUpdateGrows<K, V>(m: map<K, V>, k: K, v: V)
    requires k !in m
    ensures |m[k := v]| == |m| + 1
  {
  }

  lemma MapSameKeysSameSize<K, V, W>(m: map<K, V>, n: map<K, W>)
    requires m.Keys == n.Keys
    ensures |m| == |n|
  {
    assert |m| == |m.Keys|;
    assert |n| == |n.Keys|;
  }

  /** The keys in `order` are pairwise distinct. */
  predicate Distinct<K(==)>(order: seq<K>)
  {
    forall i, j :: 0 <= i < j < |order| ==> order[i] != order[j]
  }

  /** The loop of `GetPermanentBindings`, over the entries of a map in any order:
      every value converted under its key; `order` lists each key exactly once, in
      the order visited, and `visited` the value under each of them. */
  method MapValues<K, A, B>(m: map<K, A>, convert: A -> B) returns (result: map<K, B>, order: seq<K>, visited: seq<A>)
    ensures result.Keys == m.Keys
    ensures forall k :: k in result ==> result[k] == convert(m[k])
    ensures Distinct(order) && forall k :: k in m <==> k in order
    ensures |order| == |m|
    ensures |visited| == |order| && forall i :: 0 <= i < |order| ==> order[i] in m && visited[i] == m[order[i]]
  {
    result, order, visited := map[], [], [];
    var todo := m.Keys;
    while todo != {}
      invariant todo <= m.Keys
      invariant forall k :: k in todo ==> k !in result
      invariant forall k :: k in m <==> k in result || k in todo
      invariant forall k :: k in result ==> result[k] == convert(m[k])
      invariant forall k :: k in result <==> k in order
      invariant Distinct(order)
      invariant |order| == |result|
      invariant |visited| == |order| && forall i :: 0 <= i < |order| ==> order[i] in m && visited[i] == m[order[i]]
      decreases todo
    {
      var k :| k in todo;
      MapUpdateGrows(result, k, convert(m[k]));
      result := result[k := convert(m[k])];
      order, visited := order + [k], visited + [m[k]];
      todo := todo - {k};
    }
    MapSameKeysSameSize(result, m);
  }

  /** The retain events of converting the objects `objs`, in order. */
  function RetainEvents(objs: seq<UObject>): (r: seq<BindingEvent>)
    ensures |r| == |objs| && forall i :: 0 <= i < |objs| ==> r[i] == Retained(objs[i])
  {
    if |objs| == 0 then [] else [Retained(objs[0])] + RetainEvents(objs[1..])
  }

  /** Retaining the objects a map holds under the keys `order` appends one retain
      event per key, for the object under that key, and keeps the earlier events. */
  lemma RetainsAppended<K>(log: seq<BindingEvent>, objs: seq<UObject>, m: map<K, UObject>, order: seq<K>)
    requires |objs| == |order| && forall i :: 0 <= i < |order| ==> order[i] in m && objs[i] == m[order[i]]
    ensures |log + RetainEvents(objs)| == |log| + |order|
    ensures (log + RetainEvents(objs))[..|log|] == log
    ensures forall i :: 0 <= i < |order| ==> (log + RetainEvents(objs))[|log| + i] == Retained(m[order[i]])
  {
    var l := log + RetainEvents(objs);
    assert l[..|log|] == log;
    forall i | 0 <= i < |order|
      ensures l[|log| + i] == Retained(m[order[i]])
    {
      assert l[|log| + i] == RetainEvents(objs)[i];
    }
  }

  // ------------------------------------------------------------- registry

  /** The permanent registry and the permanence flags agree: every permanently
      named object is marked permanent, every object marked permanent has a
      permanent name, and no object has two. */
  ghost predicate RegistryValid(bound: map<UObject, ObjectBinding>, names: map<string, UObject>)
  {
    && (forall n :: n in names ==> names[n] in bound && bound[names[n]].isPermanent)
    && (forall o :: o in bound && bound[o].isPermanent ==> exists n :: n in names && names[n] == o)
    && (forall n, m :: n in names && m in names && names[n] == names[m] ==> n == m)
  }

  /** Binding an object permanently under a free name, when it has no permanent
      binding yet, keeps the registry consistent. */
  lemma PermanentBindKeepsRegistry(bound: map<UObject, ObjectBinding>, names: map<string, UObject>, name: string, obj: UObject)
    requires RegistryValid(bound, names)
    requires !(obj in bound && bound[obj].isPermanent) && name !in names
    ensures RegistryValid(bound[obj := ObjectBinding(true, -1)], names[name := obj])
  {
    var bound', names' := bound[obj := ObjectBinding(true, -1)], names[name := obj];
    forall o | o in bound' && bound'[o].isPermanent
      ensures exists n :: n in names' && names'[n] == o
    {
      if o == obj {
        assert names'[name] == obj;
      } else {
        var n :| n in names && names[n] == o;
        assert names'[n] == o;
      }
    }
  }

  /** Dropping a permanent name together with its object's binding keeps the
      registry consistent. */
  lemma PermanentUnbindKeepsRegistry(bound: map<UObject, ObjectBinding>, names: map<string, UObject>, name: string)
    requires RegistryValid(bound, names) && name in names
    ensures RegistryValid(bound - {names[name]}, names - {name})
  {
    var bound', names' := bound - {names[name]}, names - {name};
    forall o | o in bound' && bound'[o].isPermanent
      ensures exists n :: n in names' && names'[n] == o
    {
      var n :| n in names && names[n] == o;
      assert n != name;
      assert names'[n] == o;
    }
  }

  class JSScripting {
    /** Every bound object, with its binding. */
    var BoundObjects: map<UObject, ObjectBinding>
    /** The objects bound permanently, by exposed name. */
    var PermanentUObjectsByName: map<string, UObject>
    /** The objects `GuidToPtr` resolves. */
    var Objects: map<Guid, UObject>
    /** Whether a browser is attached; messages are sent only then. */
    var HasBrowser: bool
    /** The messages sent to the renderer process, in order. */
    var Outbox: seq<ProcessMessage>
    var BindingLog: seq<BindingEvent>
    var Invoked: seq<Invocation>

    ghost predicate Valid()
      reads this
    {
      RegistryValid(BoundObjects, PermanentUObjectsByName)
    }

    constructor (objects: map<Guid, UObject>)
      ensures Valid()
      ensures BoundObjects == map[] && PermanentUObjectsByName == map[] && Objects == objects
      ensures HasBrowser && Outbox == [] && BindingLog == [] && Invoked == []
    {
      BoundObjects, PermanentUObjectsByName, Objects := map[], map[], objects;
      HasBrowser, Outbox, BindingLog, Invoked := true, [], [], [];
    }

    /** What sending a message appends to the outbox. */
    function Sent(m: ProcessMessage): seq<ProcessMessage>
      reads this
    {
      if HasBrowser then [m] else []
    }

    predicate IsPermanentlyBound(obj: UObject)
      reads this
    {
      obj in BoundObjects && BoundObjects[obj].isPermanent
    }

    method SendProcessMessage(m: ProcessMessage)
      modifies this`Outbox
      ensures Outbox == old(Outbox) + Sent(m)
    {
      if HasBrowser {
        Outbox := Outbox + [m];
      }
    }

    /** `UnbindCefBrowser`: nothing is sent any more. */
    method UnbindCefBrowser()
      modifies this`HasBrowser
      ensures !HasBrowser
    {
      HasBrowser := false;
    }

    /** Exposes an object to the page under its exposed name. A permanent binding is
        refused when the object is already permanently bound or the name is taken;
        then nothing is recorded and nothing is sent. */
    method BindUObject(exposedName: string, obj: UObject, isPermanent: bool)
      requires Valid()
      modifies this`BoundObjects, this`PermanentUObjectsByName, this`Outbox, this`BindingLog
      ensures Valid()
      ensures BindingLog == old(BindingLog) + [Retained(obj)]
      ensures isPermanent && (old(IsPermanentlyBound(obj)) || exposedName in old(PermanentUObjectsByName)) ==>
                && PermanentUObjectsByName == old(PermanentUObjectsByName)
                && BoundObjects == old(BoundObjects)
                && Outbox == old(Outbox)
      ensures isPermanent && !(old(IsPermanentlyBound(obj)) || exposedName in old(PermanentUObjectsByName)) ==>
                && PermanentUObjectsByName == old(PermanentUObjectsByName)[exposedName := obj]
                && BoundObjects == old(BoundObjects)[obj := ObjectBinding(true, -1)]
                && Outbox == old(Outbox) + Sent(SetValueMessage(exposedName, ConvertedObject(obj), true))
      ensures !isPermanent ==>
                && PermanentUObjectsByName == old(PermanentUObjectsByName)
                && BoundObjects == old(BoundObjects)
                && Outbox == old(Outbox) + Sent(SetValueMessage(exposedName, ConvertedObject(obj), false))
    {
      BindingLog := BindingLog + [Retained(obj)];
      var converted := ConvertedObject(obj);
      if isPermanent {
        if IsPermanentlyBound(obj) {
          return;
        }
        if exposedName in PermanentUObjectsByName {
          return;
        }
        PermanentBindKeepsRegistry(BoundObjects, PermanentUObjectsByName, exposedName, obj);
        BoundObjects := BoundObjects[obj := ObjectBinding(true, -1)];
        PermanentUObjectsByName := PermanentUObjectsByName[exposedName := obj];
      }
      SendProcessMessage(SetValueMessage(exposedName, converted, isPermanent));
    }

    /** Withdraws an object from the page. A permanent unbinding removes the name
        and the object's binding only when the name is bound to this object, or no
        object is given, and sends nothing; any other unbinding only tells the page. */
    method UnbindUObject(exposedName: string, obj: Option<UObject>, isPermanent: bool)
      requires Valid()
      modifies this`BoundObjects, this`PermanentUObjectsByName, this`Outbox
      ensures Valid()
      ensures isPermanent ==> Outbox == old(Outbox)
      ensures isPermanent && exposedName in old(PermanentUObjectsByName) &&
              (obj.None? || old(PermanentUObjectsByName)[exposedName] == obj.value) ==>
                && PermanentUObjectsByName == old(PermanentUObjectsByName) - {exposedName}
                && BoundObjects == old(BoundObjects) - {old(PermanentUObjectsByName)[exposedName]}
      ensures isPermanent && !(exposedName in old(PermanentUObjectsByName) &&
              (obj.None? || old(PermanentUObjectsByName)[exposedName] == obj.value)) ==>
                PermanentUObjectsByName == old(PermanentUObjectsByName) && BoundObjects == old(BoundObjects)
      ensures !isPermanent ==>
                && PermanentUObjectsByName == old(PermanentUObjectsByName)
                && BoundObjects == old(BoundObjects)
                && Outbox == old(Outbox) + Sent(DeleteValueMessage(exposedName, PtrToGuid(obj), false))
    {
      if isPermanent {
        if exposedName in PermanentUObjectsByName && (obj.None? || PermanentUObjectsByName[exposedName] == obj.value) {
          var bound := PermanentUObjectsByName[exposedName];
          PermanentUnbindKeepsRegistry(BoundObjects, PermanentUObjectsByName, exposedName);
          PermanentUObjectsByName := PermanentUObjectsByName - {exposedName};
          BoundObjects := BoundObjects - {bound};
          return;
        } else {
          return;
        }
      }
      SendProcessMessage(DeleteValueMessage(exposedName, PtrToGuid(obj), isPermanent));
    }

    /** The dictionary of all permanent bindings, each object described as
        `ConvertObject` does, which retains it: the log gains one retain event per
        permanent name, in the order `order` the names are visited. */
    method GetPermanentBindings() returns (r: Value, ghost order: seq<string>)
      modifies this`BindingLog
      ensures r.Dictionary? && r.entries.Keys == PermanentUObjectsByName.Keys
      ensures forall n :: n in r.entries ==> r.entries[n] == ConvertedObject(PermanentUObjectsByName[n])
      ensures Distinct(order) && forall n :: n in PermanentUObjectsByName <==> n in order
      ensures |BindingLog| == |old(BindingLog)| + |PermanentUObjectsByName| && BindingLog[..|old(BindingLog)|] == old(BindingLog)
      ensures |order| == |PermanentUObjectsByName|
      ensures forall i :: 0 <= i < |order| ==>
                order[i] in PermanentUObjectsByName &&
                BindingLog[|old(BindingLog)| + i] == Retained(PermanentUObjectsByName[order[i]])
    {
      var names, log := PermanentUObjectsByName, BindingLog;
      var result, keys, visited := MapValues(names, ConvertedObject);
      RetainsAppended(log, visited, names, keys);
      BindingLog := log + RetainEvents(visited);
      r, order := Dictionary(result), keys;
    }

    /** Releases the object a release message names. It succeeds only for one
        string argument that parses as the GUID of a known object. */
    method HandleReleaseUObjectMessage(args: seq<Value>, parse: string -> Option<Guid>) returns (released: bool)
      modifies this`BindingLog
      ensures released <==> ReleaseArgument(args, parse).Some? && ReleaseArgument(args, parse).value in Objects
      ensures released ==> BindingLog == old(BindingLog) + [Released(Objects[ReleaseArgument(args, parse).value])]
      ensures !released ==> BindingLog == old(BindingLog)
    {
      if |args| != 1 || GetType(ListContainer(args), Index(0)) != VTypeString {
        return false;
      }
      var key := parse(args[0].s);
      if key.None? {
        return false;
      }
      if key.value !in Objects {
        return false;
      }
      BindingLog := BindingLog + [Released(Objects[key.value])];
      return true;
    }

    /** What answering an execute message does to the outbox and to the calls
        made, by outcome: nothing when it is refused, an error to the callback for
        an unknown object or function, and otherwise one call with the bound
        arguments followed, unless the function takes a promise, by its result to
        the callback. */
    twostate predicate ExecuteEffects(args: seq<Value>, parse: string -> Option<Guid>, serialised: Container)
      reads this
    {
      match ExecuteOutcomeOf(args, parse, Objects)
      case Refused => Outbox == old(Outbox) && Invoked == old(Invoked)
      case UnknownObject(cb) =>
        Outbox == old(Outbox) + old(Sent(ErrorResultMessage(cb, UnknownObjectError))) && Invoked == old(Invoked)
      case UnknownFunction(cb) =>
        Outbox == old(Outbox) + old(Sent(ErrorResultMessage(cb, UnknownFunctionError))) && Invoked == old(Invoked)
      case Call(obj, f, cb) =>
        var c := if f.paramsSize > 0 then Collect(f.params, ListContainer(ExecuteArguments(args, parse).value.callArgs))
                 else NothingCollected;
        && Invoked == old(Invoked) + [Invocation(obj, f, c.named, c.promiseParam.Some?)]
        && Outbox == old(Outbox) +
             (if c.promiseParam.Some? then [] else old(Sent(ExecuteJSFunctionMessage(cb, CallResults(c.returnParam, serialised), false))))
    }

    /** Calls the method an execute message names. A malformed message is refused;
        an unknown object or function is answered with an error; otherwise the
        function is called with the bound arguments, and unless it takes a promise
        the callback receives its result. */
    method HandleExecuteUObjectMethodMessage(args: seq<Value>, parse: string -> Option<Guid>, serialised: Container)
        returns (handled: bool)
      modifies this`Outbox, this`Invoked
      ensures handled <==> !ExecuteOutcomeOf(args, parse, Objects).Refused?
      ensures ExecuteEffects(args, parse, serialised)
    {
      var request := ExecuteArguments(args, parse);
      if request.None? {
        return false;
      }
      var req := request.value;
      if req.objectKey !in Objects {
        SendProcessMessage(ErrorResultMessage(req.callback, UnknownObjectError));
        return true;
      }
      var obj := Objects[req.objectKey];
      var found := FindFunction(obj, req.methodName);
      if found.None? {
        SendProcessMessage(ErrorResultMessage(req.callback, UnknownFunctionError));
        return true;
      }
      var f := found.value;
      var named, returnParam, promiseParam := EmptyContainer, None, None;
      if f.paramsSize > 0 {
        named, returnParam, promiseParam := CollectArguments(f.params, ListContainer(req.callArgs));
      }
      Invoked := Invoked + [Invocation(obj, f, named, promiseParam.Some?)];
      if promiseParam.None? {
        SendProcessMessage(ExecuteJSFunctionMessage(req.callback, CallResults(returnParam, serialised), false));
      }
      return true;
    }

    /** Dispatches a message from the renderer by name, compared as `FString`
        compares, ignoring case; only the execute and release messages are handled,
        every other message is refused and changes nothing. */
    method OnProcessMessageReceived(message: ProcessMessage, parse: string -> Option<Guid>, serialised: Container)
        returns (handled: bool)
      modifies this`Outbox, this`Invoked, this`BindingLog
      ensures ToLower(message.name) == ExecuteUObjectMethodKey ==>
                && handled == !ExecuteOutcomeOf(message.args, parse, Objects).Refused?
                && ExecuteEffects(message.args, parse, serialised)
                && BindingLog == old(BindingLog)
      ensures ToLower(message.name) != ExecuteUObjectMethodKey && ToLower(message.name) == ReleaseUObjectKey ==>
                && (handled <==> ReleaseArgument(message.args, parse).Some? && ReleaseArgument(message.args, parse).value in Objects)
                && (handled ==> BindingLog == old(BindingLog) + [Released(Objects[ReleaseArgument(message.args, parse).value])])
                && (!handled ==> BindingLog == old(BindingLog))
                && Outbox == old(Outbox) && Invoked == old(Invoked)
      ensures ToLower(message.name) != ExecuteUObjectMethodKey && ToLower(message.name) != ReleaseUObjectKey ==>
                !handled && Outbox == old(Outbox) && Invoked == old(Invoked) && BindingLog == old(BindingLog)
    {
      handled := false;
      if ToLower(message.name) == ExecuteUObjectMethodKey {
        handled := HandleExecuteUObjectMethodMessage(message.args, parse, serialised);
      } else if ToLower(message.name) == ReleaseUObjectKey {
        handled := HandleReleaseUObjectMessage(message.args, parse);
      }
    }
  }
}
