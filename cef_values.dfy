/** CEF's tagged values and the keyed containers (dictionaries and lists) that hold
    them, as used by Plugins/WebBrowserExtension/Source/Private/CEF/CEFJSScripting.cpp. */
module CefValues {

  /** A CEF value (`CefValue`): one alternative per type tag of `cef_value_type_t`. */
  datatype Value =
    | Null
    | Bool(b: bool)
    | Int(i: int)
    | Double(d: real)
    | String(s: string)
    | Binary(bytes: seq<bv8>)
    | Dictionary(entries: map<string, Value>)
    | List(items: seq<Value>)
    | Invalid

  /** The type tags of `cef_value_type_t`. */
  datatype TypeTag = VTypeInvalid | VTypeNull | VTypeBool | VTypeInt | VTypeDouble | VTypeString
                   | VTypeBinary | VTypeDictionary | VTypeList

  function TagOf(v: Value): TypeTag
  {
    match v
    case Null => VTypeNull
    case Bool(_) => VTypeBool
    case Int(_) => VTypeInt
    case Double(_) => VTypeDouble
    case String(_) => VTypeString
    case Binary(_) => VTypeBinary
    case Dictionary(_) => VTypeDictionary
    case List(_) => VTypeList
    case Invalid => VTypeInvalid
  }

  /** A dictionary key or a list index. */
  datatype Key = Name(name: string) | Index(index: nat)

  /** A dictionary or list value held by reference: its entries, and whether it is
      read-only (every setter of a read-only container fails). */
  datatype Container = Container(readOnly: bool, entries: map<Key, Value>)

  /** A fresh, writable, empty container (`CefDictionaryValue::Create`,
      `CefListValue::Create`). */
  const EmptyContainer := Container(false, map[])

  /** The container view of a list of values, index by index. */
  function ListContainer(items: seq<Value>): (c: Container)
    ensures forall i: nat :: i < |items| ==> Index(i) in c.entries && c.entries[Index(i)] == items[i]
    ensures forall k :: k in c.entries ==> k.Index? && k.index < |items|
  {
    Container(false, map k | k in (set i: nat | i < |items| :: Index(i)) :: items[k.index])
  }

  /** `GetType`: the tag of the value under a key, `VTYPE_INVALID` when there is none. */
  function GetType(c: Container, k: Key): TypeTag
  {
    if k in c.entries then TagOf(c.entries[k]) else VTypeInvalid
  }

  /** The setters (`SetNull`, `SetBool`, ... `SetList`): they fail on a read-only
      container and otherwise store the value under the key. */
  function Set(c: Container, k: Key, v: Value): (r: (bool, Container))
    ensures r.0 <==> !c.readOnly
    ensures r.0 ==> r.1 == c.(entries := c.entries[k := v])
    ensures !r.0 ==> r.1 == c
  {
    if c.readOnly then (false, c) else (true, c.(entries := c.entries[k := v]))
  }

  /** Copies the value under `srcKey` of `src` to `destKey` of `dest` through the
      setter for its type tag; an invalid tag copies nothing. The result carries the
      setter's result and the new destination. */
  function CopyContainerValue(dest: Container, src: Container, destKey: Key, srcKey: Key): (r: (bool, Container))
    ensures GetType(src, srcKey) == VTypeInvalid ==> r == (false, dest)
    ensures GetType(src, srcKey) != VTypeInvalid ==> r == Set(dest, destKey, src.entries[srcKey])
    ensures r.0 ==> GetType(r.1, destKey) == GetType(src, srcKey) && r.1.entries[destKey] == src.entries[srcKey]
    ensures r.1.readOnly == dest.readOnly
    ensures forall k :: k != destKey && k in dest.entries ==> k in r.1.entries && r.1.entries[k] == dest.entries[k]
    ensures forall k :: k in r.1.entries ==> k in dest.entries || k == destKey
  {
    match GetType(src, srcKey)
    case VTypeNull => Set(dest, destKey, Null)
    case VTypeBool => Set(dest, destKey, Bool(src.entries[srcKey].b))
    case VTypeInt => Set(dest, destKey, Int(src.entries[srcKey].i))
    case VTypeDouble => Set(dest, destKey, Double(src.entries[srcKey].d))
    case VTypeString => Set(dest, destKey, String(src.entries[srcKey].s))
    case VTypeBinary => Set(dest, destKey, Binary(src.entries[srcKey].bytes))
    case VTypeDictionary => Set(dest, destKey, Dictionary(src.entries[srcKey].entries))
    case VTypeList => Set(dest, destKey, List(src.entries[srcKey].items))
    case VTypeInvalid => (false, dest)
  }

  /** A copy into a writable container succeeds exactly when the source holds a
      valid value, and then the destination reads back the source's value. */
  lemma CopyIntoWritable(dest: Container, src: Container, destKey: Key, srcKey: Key)
    requires !dest.readOnly
    ensures CopyContainerValue(dest, src, destKey, srcKey).0 <==> GetType(src, srcKey) != VTypeInvalid
    ensures CopyContainerValue(dest, src, destKey, srcKey).0 ==>
              GetType(CopyContainerValue(dest, src, destKey, srcKey).1, destKey) == GetType(src, srcKey)
  {
  }

  /** Copying a value back to where it came from changes nothing. */
  lemma CopyBackIsIdentity(src: Container, dest: Container, destKey: Key, srcKey: Key)
    requires CopyContainerValue(dest, src, destKey, srcKey).0
    ensures CopyContainerValue(src, CopyContainerValue(dest, src, destKey, srcKey).1, srcKey, destKey).1 == src
  {
    var d := CopyContainerValue(dest, src, destKey, srcKey).1;
    assert !src.readOnly ==> src.entries[srcKey := d.entries[destKey]] == src.entries;
  }
}
