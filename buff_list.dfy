/** The buff list of a unit: the `BuffQueue` of buffs together with its parallel
    `BuffDuration` of remaining times (Plugins/MOBA/Source/MOBA/Public/BasicUnit.h).
    This module holds the value-level definitions that the unit's methods are
    specified by, and the lemmas about them. */
module BuffList {

  import opened AsciiText

  /** A buff (`AHeroBuff*`): `id` stands for the object's identity, `name` for its
      `FString` name, compared the way `FString::operator==` compares: ignoring
      the case of ASCII letters. */
  datatype Buff = Buff(id: nat, name: string)

  /** Which buffs a removal drops: every buff with a given name, or every
      occurrence of one buff object. */
  datatype Selector = ByName(name: string) | ByBuff(buff: Buff)

  predicate Matches(s: Selector, b: Buff)
  {
    match s
    case ByName(n) => EqualsIgnoreCase(b.name, n)
    case ByBuff(x) => b == x
  }

  /** The entry (b, d) occurs at one index of the two parallel lists. */
  ghost predicate HasEntry(bs: seq<Buff>, ds: seq<real>, b: Buff, d: real)
  {
    exists i :: 0 <= i < |bs| && i < |ds| && bs[i] == b && ds[i] == d
  }

  /** The buffs named `n`. */
  function CountNamed(bs: seq<Buff>, n: string): (c: nat)
    ensures c <= |bs|
  {
    if |bs| == 0 then 0
    else CountNamed(bs[..|bs| - 1], n) + (if EqualsIgnoreCase(bs[|bs| - 1].name, n) then 1 else 0)
  }

  /** No two buffs of the list share a name: what replacing same-named buffs keeps. */
  ghost predicate UniqueNames(bs: seq<Buff>)
  {
    forall i, j :: 0 <= i < j < |bs| ==> !EqualsIgnoreCase(bs[i].name, bs[j].name)
  }

  /** Both parallel lists with every entry whose buff `s` selects removed, the rest
      kept in order together with their durations. */
  function Drop(bs: seq<Buff>, ds: seq<real>, s: Selector): (r: (seq<Buff>, seq<real>))
    requires |bs| == |ds|
    ensures |r.0| == |r.1| <= |bs|
    decreases |bs|
  {
    if |bs| == 0 then ([], [])
    else
      var rest := Drop(bs[..|bs| - 1], ds[..|ds| - 1], s);
      if Matches(s, bs[|bs| - 1]) then rest
      else (rest.0 + [bs[|bs| - 1]], rest.1 + [ds[|ds| - 1]])
  }

  /** Dropping the entries a selector chooses, one more entry at the end. */
  lemma DropSnoc(bs: seq<Buff>, ds: seq<real>, s: Selector, b: Buff, d: real)
    requires |bs| == |ds|
    ensures Drop(bs + [b], ds + [d], s) ==
      (if Matches(s, b) then Drop(bs, ds, s)
       else (Drop(bs, ds, s).0 + [b], Drop(bs, ds, s).1 + [d]))
  {
    assert (bs + [b])[..|bs|] == bs;
    assert (ds + [d])[..|ds|] == ds;
  }

  /** Nothing that the selector chooses survives. */
  lemma {:induction false} DropRemovesSelected(bs: seq<Buff>, ds: seq<real>, s: Selector)
    requires |bs| == |ds|
    ensures forall i :: 0 <= i < |Drop(bs, ds, s).0| ==> !Matches(s, Drop(bs, ds, s).0[i])
    decreases |bs|
  {
    if |bs| > 0 {
      DropRemovesSelected(bs[..|bs| - 1], ds[..|ds| - 1], s);
    }
  }

  /** An entry is in two lists extended by one entry exactly when it is in the
      lists or is the new entry. */
  lemma HasEntrySnoc(bs: seq<Buff>, ds: seq<real>, x: Buff, e: real, b: Buff, d: real)
    requires |bs| == |ds|
    ensures HasEntry(bs + [x], ds + [e], b, d) <==> HasEntry(bs, ds, b, d) || (x == b && e == d)
  {
    var bs', ds' := bs + [x], ds + [e];
    if HasEntry(bs', ds', b, d) {
      var i :| 0 <= i < |bs'| && i < |ds'| && bs'[i] == b && ds'[i] == d;
      if i < |bs| { assert bs[i] == b && ds[i] == d; }
    }
    if HasEntry(bs, ds, b, d) {
      var i :| 0 <= i < |bs| && i < |ds| && bs[i] == b && ds[i] == d;
      assert bs'[i] == b && ds'[i] == d;
    }
    if x == b && e == d {
      assert bs'[|bs|] == b && ds'[|bs|] == d;
    }
  }

  /** An entry survives, with its own duration, exactly when it was there and the
      selector does not choose its buff. */
  lemma {:induction false} DropEntries(bs: seq<Buff>, ds: seq<real>, s: Selector, b: Buff, d: real)
    requires |bs| == |ds|
    ensures HasEntry(Drop(bs, ds, s).0, Drop(bs, ds, s).1, b, d) <==> HasEntry(bs, ds, b, d) && !Matches(s, b)
    decreases |bs|
  {
    if |bs| > 0 {
      var n := |bs| - 1;
      var ib, id := bs[..n], ds[..n];
      assert ib + [bs[n]] == bs && id + [ds[n]] == ds;
      DropEntries(ib, id, s, b, d);
      HasEntrySnoc(ib, id, bs[n], ds[n], b, d);
      DropSnoc(ib, id, s, bs[n], ds[n]);
      if !Matches(s, bs[n]) {
        HasEntrySnoc(Drop(ib, id, s).0, Drop(ib, id, s).1, bs[n], ds[n], b, d);
      }
    }
  }

  /** When the selector chooses nothing, both lists are left as they are. */
  lemma {:induction false} DropNothingSelected(bs: seq<Buff>, ds: seq<real>, s: Selector)
    requires |bs| == |ds|
    requires forall i :: 0 <= i < |bs| ==> !Matches(s, bs[i])
    ensures Drop(bs, ds, s) == (bs, ds)
    decreases |bs|
  {
    if |bs| > 0 {
      var n := |bs| - 1;
      var ib, id := bs[..n], ds[..n];
      assert forall i :: 0 <= i < |ib| ==> ib[i] == bs[i];
      DropNothingSelected(ib, id, s);
      assert !Matches(s, bs[n]);
      DropSnoc(ib, id, s, bs[n], ds[n]);
      assert ib + [bs[n]] == bs && id + [ds[n]] == ds;
    }
  }

  /** Removing twice removes nothing more. */
  lemma DropIdempotent(bs: seq<Buff>, ds: seq<real>, s: Selector)
    requires |bs| == |ds|
    ensures Drop(Drop(bs, ds, s).0, Drop(bs, ds, s).1, s) == Drop(bs, ds, s)
  {
    DropRemovesSelected(bs, ds, s);
    DropNothingSelected(Drop(bs, ds, s).0, Drop(bs, ds, s).1, s);
  }

  /** Removal keeps the surviving buffs in their old relative order, so it keeps
      names unique. */
  lemma {:induction false} DropKeepsUniqueNames(bs: seq<Buff>, ds: seq<real>, s: Selector)
    requires |bs| == |ds|
    requires UniqueNames(bs)
    ensures UniqueNames(Drop(bs, ds, s).0)
    decreases |bs|
  {
    if |bs| > 0 {
      var n := |bs| - 1;
      var rest := Drop(bs[..n], ds[..n], s);
      assert UniqueNames(bs[..n]) by {
        forall i, j | 0 <= i < j < n ensures !EqualsIgnoreCase(bs[..n][i].name, bs[..n][j].name) {
          assert bs[..n][i] == bs[i] && bs[..n][j] == bs[j];
        }
      }
      DropKeepsUniqueNames(bs[..n], ds[..n], s);
      if !Matches(s, bs[n]) {
        var r := rest.0 + [bs[n]];
        forall i, j | 0 <= i < j < |r| ensures !EqualsIgnoreCase(r[i].name, r[j].name) {
          if j == |rest.0| {
            DropEntries(bs[..n], ds[..n], s, rest.0[i], rest.1[i]);
            assert HasEntry(rest.0, rest.1, rest.0[i], rest.1[i]);
            var k :| 0 <= k < n && bs[..n][k] == rest.0[i] && ds[..n][k] == rest.1[i];
            assert bs[k] == r[i];
          }
        }
      }
    }
  }

  /** Counting names, one more buff at the end. */
  lemma CountNamedSnoc(bs: seq<Buff>, b: Buff, n: string)
    ensures CountNamed(bs + [b], n) == CountNamed(bs, n) + (if EqualsIgnoreCase(b.name, n) then 1 else 0)
  {
    assert (bs + [b])[..|bs|] == bs;
  }

  /** A list with no buff named `n` counts none. */
  lemma {:induction false} CountNamedNone(bs: seq<Buff>, n: string)
    requires forall i :: 0 <= i < |bs| ==> !EqualsIgnoreCase(bs[i].name, n)
    ensures CountNamed(bs, n) == 0
    decreases |bs|
  {
    if |bs| > 0 {
      CountNamedNone(bs[..|bs| - 1], n);
    }
  }

  /** What `AddUniqueBuff` leaves: every same-named entry dropped, the new entry
      appended. */
  function ReplaceNamed(bs: seq<Buff>, ds: seq<real>, b: Buff, d: real): (r: (seq<Buff>, seq<real>))
    requires |bs| == |ds|
    ensures |r.0| == |r.1|
  {
    var kept := Drop(bs, ds, ByName(b.name));
    (kept.0 + [b], kept.1 + [d])
  }

  /** After replacing, exactly one buff has the new buff's name; it is the new buff,
      carrying the new duration. */
  lemma ReplaceNamedLeavesOne(bs: seq<Buff>, ds: seq<real>, b: Buff, d: real)
    requires |bs| == |ds|
    ensures CountNamed(ReplaceNamed(bs, ds, b, d).0, b.name) == 1
    ensures HasEntry(ReplaceNamed(bs, ds, b, d).0, ReplaceNamed(bs, ds, b, d).1, b, d)
    ensures forall i :: 0 <= i < |ReplaceNamed(bs, ds, b, d).0| && EqualsIgnoreCase(ReplaceNamed(bs, ds, b, d).0[i].name, b.name) ==>
              ReplaceNamed(bs, ds, b, d).0[i] == b && ReplaceNamed(bs, ds, b, d).1[i] == d
  {
    var kept := Drop(bs, ds, ByName(b.name));
    var r := ReplaceNamed(bs, ds, b, d);
    DropRemovesSelected(bs, ds, ByName(b.name));
    CountNamedNone(kept.0, b.name);
    CountNamedSnoc(kept.0, b, b.name);
    assert r.0[|kept.0|] == b && r.1[|kept.1|] == d;
  }

  /** Entries with other names survive a replacement unchanged. */
  lemma ReplaceNamedKeepsOthers(bs: seq<Buff>, ds: seq<real>, b: Buff, d: real, x: Buff, e: real)
    requires |bs| == |ds|
    requires !EqualsIgnoreCase(x.name, b.name)
    ensures HasEntry(ReplaceNamed(bs, ds, b, d).0, ReplaceNamed(bs, ds, b, d).1, x, e) <==> HasEntry(bs, ds, x, e)
  {
    var kept := Drop(bs, ds, ByName(b.name));
    var r := ReplaceNamed(bs, ds, b, d);
    DropEntries(bs, ds, ByName(b.name), x, e);
    if HasEntry(r.0, r.1, x, e) {
      var i :| 0 <= i < |r.0| && i < |r.1| && r.0[i] == x && r.1[i] == e;
      assert i < |kept.0|;
      assert kept.0[i] == x && kept.1[i] == e;
    }
    if HasEntry(kept.0, kept.1, x, e) {
      var i :| 0 <= i < |kept.0| && i < |kept.1| && kept.0[i] == x && kept.1[i] == e;
      assert r.0[i] == x && r.1[i] == e;
    }
  }

  /** Replacing keeps a list whose names are unique unique. */
  lemma ReplaceNamedKeepsUniqueNames(bs: seq<Buff>, ds: seq<real>, b: Buff, d: real)
    requires |bs| == |ds|
    requires UniqueNames(bs)
    ensures UniqueNames(ReplaceNamed(bs, ds, b, d).0)
  {
    var kept := Drop(bs, ds, ByName(b.name));
    DropKeepsUniqueNames(bs, ds, ByName(b.name));
    DropRemovesSelected(bs, ds, ByName(b.name));
    var r := ReplaceNamed(bs, ds, b, d).0;
    forall i, j | 0 <= i < j < |r| ensures !EqualsIgnoreCase(r[i].name, r[j].name) {
      if j == |kept.0| {
        assert r[i] == kept.0[i];
      } else {
        assert r[i] == kept.0[i] && r[j] == kept.0[j];
      }
    }
  }
}
