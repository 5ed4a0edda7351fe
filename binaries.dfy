/** The binary-list views both front ends serve from a repository's `_repository?view=...`
    files: the listing filtered down to the requested binaries, and the file list handed to
    cpio. */
module Binaries {
  import opened Wrappers
  import opened Text
  import opened Manifest
  import opened PosixPath

  predicate IsBinary(e: Element)
  {
    e.tag == "binary"
  }

  /** Some `binary` element of the tree, the root included, lacks the attribute: reading it
      raises KeyError. */
  predicate MissingKey(e: Element, key: string)
  {
    (IsBinary(e) && key !in e.attrs)
    || exists i :: 0 <= i < |e.children| && MissingKey(e.children[i], key)
  }

  /** The tree, the root included, holds a `binary` element. */
  predicate HasBinary(e: Element)
  {
    IsBinary(e) || exists i :: 0 <= i < |e.children| && HasBinary(e.children[i])
  }

  /** A `binary` element whose attribute, without its extension, is not requested. */
  predicate Unwanted(e: Element, key: string, wanted: seq<string>)
  {
    IsBinary(e) && key in e.attrs && SplitExtRoot(e.attrs[key]) !in wanted
  }

  predicate AnyUnwanted(e: Element, key: string, wanted: seq<string>)
  {
    Unwanted(e, key, wanted) || exists i :: 0 <= i < |e.children| && AnyUnwanted(e.children[i], key, wanted)
  }

  /** A removable element that is not a child of the root (the root itself, or one deeper
      down): removing it from the root raises (ValueError in lxml, NotFoundErr in minidom). */
  predicate UnwantedOffChild(doc: Element, key: string, wanted: seq<string>)
  {
    Unwanted(doc, key, wanted)
    || exists i, j :: 0 <= i < |doc.children| && 0 <= j < |doc.children[i].children|
         && AnyUnwanted(doc.children[i].children[j], key, wanted)
  }

  /** The root's children without the unwanted binaries, in their order. */
  function KeepWanted(cs: seq<Element>, key: string, wanted: seq<string>): seq<Element>
  {
    if |cs| == 0 then []
    else
      var c := cs[|cs| - 1];
      KeepWanted(cs[..|cs| - 1], key, wanted) + (if Unwanted(c, key, wanted) then [] else [c])
  }

  /** The listing after the two loops of the names and binaryversions views: `wanted` is the
      requested list, `None` where the request has none (then testing membership raises
      KeyError as soon as there is a binary to test). */
  function FilterSpec(doc: Element, key: string, wanted: Option<seq<string>>): Outcome<Element>
  {
    if MissingKey(doc, key) then Raises(KeyError)
    else if wanted.None? then (if HasBinary(doc) then Raises(KeyError) else Returns(doc))
    else if UnwantedOffChild(doc, key, wanted.value) then Raises(ValueError)
    else Returns(doc.(children := KeepWanted(doc.children, key, wanted.value)))
  }

  /** Collect the removables, then remove them from the root. */
  method FilterBinaries(doc: Element, key: string, wanted: Option<seq<string>>) returns (r: Outcome<Element>)
    ensures r == FilterSpec(doc, key, wanted)
  {
    if MissingKey(doc, key) {
      return Raises(KeyError);
    }
    if wanted.None? {
      if HasBinary(doc) {
        return Raises(KeyError);
      }
      return Returns(doc);
    }
    if UnwantedOffChild(doc, key, wanted.value) {
      return Raises(ValueError);
    }
    var removables: set<nat> := {};
    var i := 0;
    while i < |doc.children|
      invariant 0 <= i <= |doc.children|
      invariant forall k :: k in removables <==> 0 <= k < i && Unwanted(doc.children[k], key, wanted.value)
    {
      if Unwanted(doc.children[i], key, wanted.value) {
        removables := removables + {i};
      }
      i := i + 1;
    }
    var children: seq<Element> := [];
    var k := 0;
    while k < |doc.children|
      invariant 0 <= k <= |doc.children|
      invariant children == KeepWanted(doc.children[..k], key, wanted.value)
    {
      assert doc.children[..k + 1][..k] == doc.children[..k];
      if k !in removables {
        children := children + [doc.children[k]];
      }
      k := k + 1;
    }
    assert doc.children[..k] == doc.children;
    r := Returns(doc.(children := children));
  }

  lemma {:induction false} KeepWantedSound(cs: seq<Element>, key: string, wanted: seq<string>)
    ensures forall c :: c in KeepWanted(cs, key, wanted) ==> c in cs && !Unwanted(c, key, wanted)
    ensures forall c :: c in cs && !Unwanted(c, key, wanted) ==> c in KeepWanted(cs, key, wanted)
    ensures |KeepWanted(cs, key, wanted)| <= |cs|
  {
    if |cs| > 0 {
      KeepWantedSound(cs[..|cs| - 1], key, wanted);
      assert forall c :: c in cs ==> c in cs[..|cs| - 1] || c == cs[|cs| - 1];
    }
  }

  /** A served listing keeps the root and every child that is not an unwanted binary, and
      every binary it lists was requested, under its name without extension. */
  lemma FilterKeepsRequested(doc: Element, key: string, wanted: seq<string>)
    requires FilterSpec(doc, key, Some(wanted)).Returns?
    ensures var d := FilterSpec(doc, key, Some(wanted)).value;
      && d.tag == doc.tag && d.attrs == doc.attrs
      && (forall c :: c in d.children ==> c in doc.children)
      && (forall c :: c in d.children && IsBinary(c) ==> key in c.attrs && SplitExtRoot(c.attrs[key]) in wanted)
      && (forall c :: c in doc.children && !Unwanted(c, key, wanted) ==> c in d.children)
  {
    KeepWantedSound(doc.children, key, wanted);
    var d := FilterSpec(doc, key, Some(wanted)).value;
    forall c | c in d.children && IsBinary(c) ensures key in c.attrs {
      var i :| 0 <= i < |doc.children| && doc.children[i] == c;
      assert !MissingKey(doc.children[i], key);
    }
  }

  lemma {:induction false} KeepWantedIdempotent(cs: seq<Element>, key: string, wanted: seq<string>)
    ensures KeepWanted(KeepWanted(cs, key, wanted), key, wanted) == KeepWanted(cs, key, wanted)
  {
    if |cs| > 0 {
      var c := cs[|cs| - 1];
      var pre := KeepWanted(cs[..|cs| - 1], key, wanted);
      KeepWantedIdempotent(cs[..|cs| - 1], key, wanted);
      if Unwanted(c, key, wanted) {
        assert KeepWanted(cs, key, wanted) == pre + [];
        assert pre + [] == pre;
      } else {
        assert KeepWanted(cs, key, wanted) == pre + [c];
        assert (pre + [c])[..|pre|] == pre;
        assert KeepWanted(pre + [c], key, wanted) == KeepWanted(pre, key, wanted) + [c];
      }
    }
  }

  /** A child of a listing that filters without error has the key on every binary and no
      removable element below it. */
  lemma ChildClean(doc: Element, key: string, wanted: seq<string>, c: Element)
    requires !MissingKey(doc, key) && !UnwantedOffChild(doc, key, wanted) && c in doc.children
    ensures !MissingKey(c, key)
    ensures forall j :: 0 <= j < |c.children| ==> !AnyUnwanted(c.children[j], key, wanted)
  {
    var i :| 0 <= i < |doc.children| && doc.children[i] == c;
  }

  /** Filtering a served listing again changes nothing. */
  lemma FilterIdempotent(doc: Element, key: string, wanted: seq<string>)
    requires FilterSpec(doc, key, Some(wanted)).Returns?
    ensures FilterSpec(FilterSpec(doc, key, Some(wanted)).value, key, Some(wanted)) == FilterSpec(doc, key, Some(wanted))
  {
    var d := FilterSpec(doc, key, Some(wanted)).value;
    assert d == doc.(children := KeepWanted(doc.children, key, wanted));
    KeepWantedSound(doc.children, key, wanted);
    KeepWantedIdempotent(doc.children, key, wanted);
    forall i | 0 <= i < |d.children|
      ensures !MissingKey(d.children[i], key)
      ensures forall j :: 0 <= j < |d.children[i].children| ==> !AnyUnwanted(d.children[i].children[j], key, wanted)
    {
      ChildClean(doc, key, wanted, d.children[i]);
    }
    assert !MissingKey(d, key);
    assert !UnwantedOffChild(d, key, wanted);
    assert d.(children := KeepWanted(d.children, key, wanted)) == d;
  }

  // ---------------------------------------------------------------------------
  // The cpio view's file list
  // ---------------------------------------------------------------------------

  /** The line the cpio view writes for one requested binary. */
  function CpioLine(x: string): string
  {
    Basename(x) + ".rpm\n"
  }

  function CpioListSpec(bs: seq<string>): string
  {
    if |bs| == 0 then "" else CpioLine(bs[0]) + CpioListSpec(bs[1..])
  }

  /** The file names cpio archives, one per requested binary. */
  function RpmNames(bs: seq<string>): (ns: seq<string>)
    ensures |ns| == |bs| && forall i :: 0 <= i < |bs| ==> ns[i] == Basename(bs[i]) + ".rpm"
  {
    if |bs| == 0 then [] else [Basename(bs[0]) + ".rpm"] + RpmNames(bs[1..])
  }

  lemma {:induction false} CpioListSnoc(bs: seq<string>, x: string)
    ensures CpioListSpec(bs + [x]) == CpioListSpec(bs) + CpioLine(x)
  {
    if |bs| > 0 {
      assert (bs + [x])[1..] == bs[1..] + [x];
      CpioListSnoc(bs[1..], x);
    } else {
      assert [x][1..] == [];
    }
  }

  /** `binaries = binaries + basename(x) + ".rpm\n"` over the requested binaries. */
  method CpioList(bs: seq<string>) returns (list: string)
    ensures list == CpioListSpec(bs)
  {
    list := "";
    var i := 0;
    while i < |bs|
      invariant 0 <= i <= |bs|
      invariant list == CpioListSpec(bs[..i])
    {
      assert bs[..i + 1] == bs[..i] + [bs[i]];
      CpioListSnoc(bs[..i], bs[i]);
      list := list + Basename(bs[i]) + ".rpm\n";
      i := i + 1;
    }
    assert bs[..i] == bs;
  }

  /** Read back line by line, the list names exactly the requested binaries' base names with
      `.rpm` appended, in request order, each line ended by a newline. */
  lemma {:induction false} CpioListLines(bs: seq<string>)
    requires forall i :: 0 <= i < |bs| ==> '\n' !in bs[i]
    ensures Split(CpioListSpec(bs), '\n') == RpmNames(bs) + [""]
  {
    CpioListIsJoin(bs);
    var ns := RpmNames(bs) + [""];
    forall i | 0 <= i < |ns| ensures '\n' !in ns[i] {
      if i < |bs| {
        BasenameSuffix(bs[i]);
        var b := Basename(bs[i]);
        assert ns[i] == b + ".rpm";
      }
    }
    SplitJoin(ns, '\n');
  }

  lemma {:induction false} CpioListIsJoin(bs: seq<string>)
    ensures CpioListSpec(bs) == Text.Join(RpmNames(bs) + [""], '\n')
  {
    if |bs| > 0 {
      CpioListIsJoin(bs[1..]);
      var ns := RpmNames(bs) + [""];
      assert ns[1..] == RpmNames(bs[1..]) + [""];
    }
  }
}
