/** patchDiskBlock (internal/libvirt/domain_xml.go): one disk block made to boot from a given volume. */
module DiskBlock {
  import opened Outcomes
  import opened XmlScan
  import opened XmlClean
  import opened XmlAttributes
  import opened XmlSetAttribute
  import opened XmlRewrite
  import Text

  const CLOSE := "</disk>"
  const DISK := Paired("<disk", CLOSE)
  const END := Exact(CLOSE)
  const DRIVER := SelfClosing("<driver")
  const SOURCE := SelfClosing("<source")
  const TARGET := SelfClosing("<target")
  const BOOT := SelfClosing("<boot")
  const READONLY := Bare("<readonly")

  lemma PatternsProper()
    ensures Proper(DISK) && Proper(END) && Proper(DRIVER) && Proper(SOURCE) && Proper(TARGET) && Proper(BOOT)
    ensures Proper(READONLY)
  {
  }

  /** The second letters: d, s, t, b, r and the slash. */
  lemma PatternsApart()
    ensures Apart(DRIVER, SOURCE) && Apart(DRIVER, TARGET) && Apart(DRIVER, BOOT) && Apart(DRIVER, READONLY)
    ensures Apart(SOURCE, DRIVER) && Apart(SOURCE, TARGET) && Apart(SOURCE, BOOT) && Apart(SOURCE, READONLY)
    ensures Apart(BOOT, DRIVER) && Apart(BOOT, SOURCE) && Apart(BOOT, TARGET)
    ensures Apart(TARGET, DRIVER) && Apart(TARGET, SOURCE) && Apart(TARGET, READONLY)
    ensures Apart(DRIVER, END) && Apart(SOURCE, END) && Apart(BOOT, END) && Apart(TARGET, END) && Apart(READONLY, END)
    ensures Apart(READONLY, DRIVER) && Apart(READONLY, SOURCE) && Apart(READONLY, TARGET)
  {
    PatternsProper();
  }

  // ----- The new elements -----

  datatype Volume = Volume(path: string, format: string, pool: string, name: string)

  function Attr(name: string, value: string): string {
    name + "='" + XmlAttr(value) + "'"
  }

  function DriverElement(format: string): string {
    Element("<driver", "name='qemu'" + " " + Attr("type", format))
  }

  function SourceElement(v: Volume): string {
    if v.pool != "" && v.name != "" then Element("<source", Attr("pool", v.pool) + " " + Attr("volume", v.name))
    else Element("<source", Attr("file", v.path))
  }

  const BOOT_ELEMENT := Element("<boot", "order='1'")

  /** A value that no `$` of makes a reference of, once it is escaped. */
  predicate RefFree(value: string) {
    NoReference(XmlAttr(value))
  }

  /** The names that are written make no reference. */
  predicate NoReferences(v: Volume) {
    RefFree(v.format) && if v.pool != "" && v.name != "" then RefFree(v.pool) && RefFree(v.name) else RefFree(v.path)
  }

  lemma NoDollarRefFree(value: string)
    requires '$' !in value
    ensures RefFree(value)
  {
    XmlAttrPlain(value);
    var e := XmlAttr(value);
    assert forall i | 0 <= i < |e| :: e[i] != '$';
    NoDollarAlone(e);
  }

  lemma AttrNoAngle(name: string, value: string)
    requires NoAngle(name)
    ensures NoAngle(Attr(name, value))
  {
    XmlAttrPlain(value);
    var e := XmlAttr(value);
    assert forall i | 0 <= i < |e| :: !Markup(e[i]);
  }

  lemma PairNoAngle(a: string, b: string)
    requires NoAngle(a) && NoAngle(b)
    ensures NoAngle(a + " " + b)
  {
  }

  lemma ElementsFit(v: Volume)
    ensures IsTag(DriverElement(v.format)) && Fits(DRIVER, DriverElement(v.format))
    ensures IsTag(SourceElement(v)) && Fits(SOURCE, SourceElement(v))
    ensures IsTag(BOOT_ELEMENT) && Fits(BOOT, BOOT_ELEMENT)
  {
    DriverFits(v.format);
    SourceFits(v);
    BootFits();
  }

  lemma BootFits()
    ensures IsTag(BOOT_ELEMENT) && Fits(BOOT, BOOT_ELEMENT)
  {
    ElementFits("<boot", "order='1'");
  }

  lemma DriverFits(format: string)
    ensures IsTag(DriverElement(format)) && Fits(DRIVER, DriverElement(format))
  {
    AttrNoAngle("type", format);
    PairNoAngle("name='qemu'", Attr("type", format));
    ElementFits("<driver", "name='qemu'" + " " + Attr("type", format));
  }

  lemma SourceFits(v: Volume)
    ensures IsTag(SourceElement(v)) && Fits(SOURCE, SourceElement(v))
  {
    if v.pool != "" && v.name != "" {
      AttrNoAngle("pool", v.pool);
      AttrNoAngle("volume", v.name);
      PairNoAngle(Attr("pool", v.pool), Attr("volume", v.name));
      ElementFits("<source", Attr("pool", v.pool) + " " + Attr("volume", v.name));
    } else {
      AttrNoAngle("file", v.path);
      ElementFits("<source", Attr("file", v.path));
    }
  }

  // ----- References in the new elements -----

  /** An attribute makes no reference but those of its value. */
  lemma AttrReferences(name: string, value: string)
    requires '$' !in name
    ensures NoReference(Attr(name, value)) <==> RefFree(value)
  {
    var e := XmlAttr(value);
    assert Attr(name, value) == (name + "='") + (e + "'");
    NoDollarNoReference(name + "='", e + "'");
    NoReferenceConcat(e, "'");
    NoDollarAlone("'");
  }

  lemma PairReferences(a: string, b: string)
    ensures NoReference(a + " " + b) <==> NoReference(a) && NoReference(b)
  {
    Assoc(a, " ", b);
    NoReferenceConcat(a, " " + b);
    NoDollarNoReference(" ", b);
  }

  lemma TwoAttributeElement(open: string, n: string, v: string, m: string, w: string)
    requires '$' !in open && '$' !in n && '$' !in m
    ensures NoReference(Element(open, Attr(n, v) + " " + Attr(m, w))) <==> RefFree(v) && RefFree(w)
  {
    AttrReferences(n, v);
    AttrReferences(m, w);
    PairReferences(Attr(n, v), Attr(m, w));
    ElementReferences(open, Attr(n, v) + " " + Attr(m, w));
  }

  lemma QemuText()
    ensures Attr("name", "qemu") == "name='qemu'" && RefFree("qemu")
  {
    EscapeNothing("qemu");
    NoDollarAlone("qemu");
  }

  lemma DriverReferences(format: string)
    ensures NoReference(DriverElement(format)) <==> RefFree(format)
  {
    QemuText();
    TwoAttributeElement("<driver", "name", "qemu", "type", format);
  }

  lemma SourceReferences(v: Volume)
    ensures NoReference(SourceElement(v)) <==>
              if v.pool != "" && v.name != "" then RefFree(v.pool) && RefFree(v.name) else RefFree(v.path)
  {
    if v.pool != "" && v.name != "" {
      TwoAttributeElement("<source", "pool", v.pool, "volume", v.name);
    } else {
      AttrReferences("file", v.path);
      ElementReferences("<source", Attr("file", v.path));
    }
  }

  lemma BootReferences()
    ensures NoReference(BOOT_ELEMENT)
  {
    NoDollarAlone("order='1'");
    ElementReferences("<boot", "order='1'");
  }

  lemma ElementsPlain(v: Volume)
    requires NoReferences(v)
    ensures NoReference(DriverElement(v.format)) && NoReference(SourceElement(v)) && NoReference(BOOT_ELEMENT)
  {
    DriverReferences(v.format);
    SourceReferences(v);
    BootReferences();
  }

  // ----- The opening tag -----

  /** `<disk` as the whole name of a tag. */
  predicate IsDiskTag(o: string) {
    IsTag(o) && Opens(o, "<disk")
  }

  /** Setting an attribute of a disk tag gives a disk tag. The name must not start like `disk` itself. */
  lemma SetKeepsTag(o: string, name: string, value: string)
    requires IsDiskTag(o) && AttributeName(name) && PlainValue(XmlAttr(value)) && NoAngle(XmlAttr(value))
    requires name[0] != 'd' || (|name| > 1 && name[1] != 'i')
    ensures IsDiskTag(SetAttribute(o, name, value))
  {
    var v := XmlAttr(value);
    if HasQuoted(o, name, '\'', false) {
      RewrittenTag(o, name, '\'', v);
    } else if HasQuoted(o, name, '"', false) {
      RewrittenTag(o, name, '"', v);
    } else {
      AddedTag(o, name, v);
    }
  }

  lemma {:induction false} RewrittenNoAngle(m: string, name: string, q: char, v: string, word: bool)
    requires AttributeName(name) && PlainValue(v) && NoAngle(v) && Quote(q) && NoAngle(m)
    ensures NoAngle(Rewritten(m, name, q, v, word))
    decreases |m|
  {
    if m != [] {
      var n := MatchAt(m, name, q, word);
      if n > 0 {
        RewriteStep(m, name, q, v, word);
        AttributeNoAngle(name, q, v);
        RewrittenNoAngle(m[n..], name, q, v, false);
      } else {
        RewrittenNoAngle(m[1..], name, q, v, WordChar(m[0]));
      }
    }
  }

  lemma RewriteStep(s: string, name: string, q: char, v: string, word: bool)
    requires AttributeName(name) && PlainValue(v) && Quote(q) && s != [] && MatchAt(s, name, q, word) > 0
    ensures
      Rewritten(s, name, q, v, word) ==
      Attribute(name, q, v) + Rewritten(s[MatchAt(s, name, q, word)..], name, q, v, false)
  {
    ExpandsToAttribute(name, q, v, s[..MatchAt(s, name, q, word)]);
  }

  lemma {:induction false} RewrittenEnd(m: string, name: string, q: char, v: string, word: bool)
    requires AttributeName(name) && PlainValue(v) && Quote(q)
    ensures Rewritten(m + ">", name, q, v, word) == Rewritten(m, name, q, v, word) + ">"
    decreases |m|
  {
    EndIsNoMatch(m, name, q, word);
    if m == [] {
      assert (m + ">")[1..] == [] && (m + ">")[..1] == ">";
    } else {
      var n := MatchAt(m, name, q, word);
      if n > 0 {
        RewriteStep(m, name, q, v, word);
        RewriteStep(m + ">", name, q, v, word);
        RewrittenEnd(m[n..], name, q, v, false);
        EndApart(m, n, Attribute(name, q, v), Rewritten(m[n..], name, q, v, false));
      } else {
        RewrittenEnd(m[1..], name, q, v, WordChar(m[0]));
        EndApart(m, 1, m[..1], Rewritten(m[1..], name, q, v, WordChar(m[0])));
      }
    }
  }

  lemma EndApart(m: string, n: nat, a: string, after: string)
    requires n <= |m|
    ensures (m + ">")[n..] == m[n..] + ">" && (m + ">")[..n] == m[..n] && a + (after + ">") == a + after + ">"
  {
  }

  lemma AttributeNoAngle(name: string, q: char, v: string)
    requires AttributeName(name) && NoAngle(v) && Quote(q)
    ensures NoAngle(Attribute(name, q, v))
  {
    assert forall i | 0 <= i < |name| :: WordChar(name[i]);
  }

  /** A `>` behind the text takes no part in a match. */
  lemma EndIsNoMatch(m: string, name: string, q: char, word: bool)
    requires AttributeName(name) && Quote(q)
    ensures MatchAt(m + ">", name, q, word) == MatchAt(m, name, q, word)
  {
    var s, n := m + ">", |name| + 2;
    assert s[..|m|] == m;
    if |m| < n {
      if Token(name, q) <= s {
        TokenAt(s, name, q, |m|);
      }
    } else {
      PrefixWithin(Token(name, q), s, |m|);
      assert s[n..] == m[n..] + ">";
      UpToConcat(m[n..], ">", q);
    }
  }

  lemma RewrittenTag(o: string, name: string, q: char, v: string)
    requires IsDiskTag(o) && AttributeName(name) && PlainValue(v) && NoAngle(v) && Quote(q)
    requires name[0] != 'd' || (|name| > 1 && name[1] != 'i')
    ensures IsDiskTag(Rewritten(o, name, q, v, false))
  {
    var m := CutDiskTag(o);
    NameIsPassed(m + ">", name, q, v);
    RewrittenEnd(m, name, q, v, true);
    RewrittenNoAngle(m, name, q, v, true);
    var r := Rewritten(m, name, q, v, true);
    Assoc("<disk", r, ">");
    assert m != [] ==> MatchAt(m, name, q, true) == 0 && r[0] == m[0];
    DiskTagFrom(r);
  }

  lemma CutDiskTag(o: string) returns (m: string)
    requires IsDiskTag(o)
    ensures o == "<disk" + (m + ">") && NoAngle(m) && (m == [] || !WordChar(m[0]))
  {
    assert o[4] == 'k';
    m := o[5..|o| - 1];
    assert m != [] ==> m[0] == o[5];
  }

  lemma DiskTagFrom(r: string)
    requires NoAngle(r) && (r == [] || !WordChar(r[0]))
    ensures IsDiskTag("<disk" + r + ">")
  {
    var t := "<disk" + r + ">";
    assert forall i | 5 <= i < |t| - 1 :: t[i] == r[i - 5];
    assert t[..5] == "<disk";
  }

  lemma PassOne(c: char, rest: string, name: string, q: char, v: string, word: bool)
    requires word || !(Token(name, q) <= [c] + rest)
    ensures Rewritten([c] + rest, name, q, v, word) == [c] + Rewritten(rest, name, q, v, WordChar(c))
  {
    assert ([c] + rest)[1..] == rest && ([c] + rest)[..1] == [c];
  }

  lemma OtherName(rest: string, name: string, q: char)
    requires AttributeName(name) && Quote(q) && (name[0] != 'd' || (|name| > 1 && name[1] != 'i'))
    ensures !(Token(name, q) <= ['<'] + rest) && !(Token(name, q) <= ['d'] + (['i'] + rest))
  {
    assert Token(name, q)[0] == name[0] && (|name| > 1 ==> Token(name, q)[1] == name[1]);
    assert (['d'] + (['i'] + rest))[1] == 'i';
  }

  /** No attribute starts inside the name of the element. */
  lemma NameIsPassed(rest: string, name: string, q: char, v: string)
    requires AttributeName(name) && Quote(q) && (name[0] != 'd' || (|name| > 1 && name[1] != 'i'))
    ensures Rewritten("<disk" + rest, name, q, v, false) == "<disk" + Rewritten(rest, name, q, v, true)
  {
    var s4 := ['k'] + rest;
    var s3 := ['s'] + s4;
    var s2 := ['i'] + s3;
    var s1 := ['d'] + s2;
    OtherName(s1, name, q);
    OtherName(s3, name, q);
    PassOne('k', rest, name, q, v, true);
    PassOne('s', s4, name, q, v, true);
    PassOne('i', s3, name, q, v, true);
    PassOne('d', s2, name, q, v, false);
    PassOne('<', s1, name, q, v, false);
    Spelled(rest);
    Spelled(Rewritten(rest, name, q, v, true));
  }

  lemma Spelled(rest: string)
    ensures ['<'] + (['d'] + (['i'] + (['s'] + (['k'] + rest)))) == "<disk" + rest
  {
  }

  lemma AddedTag(o: string, name: string, v: string)
    requires IsDiskTag(o) && AttributeName(name) && NoAngle(v)
    ensures IsDiskTag(Added(o, name, v))
  {
    DiskName(o);
    AddedAs(o, name, v);
    AttributeNoAngle(name, '\'', v);
    DiskAttributes(o);
    PlacedTag(o[5..|o| - 1], name, v);
  }

  lemma DiskAttributes(o: string)
    requires IsDiskTag(o) && |o| >= 6
    ensures var attrs := o[5..|o| - 1]; NoAngle(attrs) && (attrs == [] || !WordChar(attrs[0]))
  {
    var attrs := o[5..|o| - 1];
    assert forall i | 0 <= i < |attrs| :: attrs[i] == o[i + 5];
  }

  lemma PlacedTag(attrs: string, name: string, v: string)
    requires NoAngle(attrs) && (attrs == [] || !WordChar(attrs[0])) && NoAngle(Attribute(name, '\'', v))
    ensures IsDiskTag(Placed("<disk", attrs, name, v, ">"))
  {
    PlacedForm("<disk", attrs, name, v);
    var kept := if Text.TrimSpace(attrs) == [] then [] else attrs;
    GroupAttributes(kept, Attribute(name, '\'', v));
    DiskTagFrom(kept + " " + Attribute(name, '\'', v));
  }

  lemma GroupAttributes(kept: string, a: string)
    ensures "<disk" + kept + " " + a + ">" == "<disk" + (kept + " " + a) + ">"
    ensures kept == [] ==> "<disk" + kept == "<disk"
  {
  }

  lemma NameLenOne(c: char, rest: string)
    requires WordChar(c)
    ensures NameLen([c] + rest) == 1 + NameLen(rest)
  {
    assert ([c] + rest)[1..] == rest;
  }

  lemma DiskName(o: string)
    requires IsDiskTag(o)
    ensures NameLen(o[1..]) == 4 && o[..5] == "<disk" && |o| >= 6
  {
    assert o[4] == 'k';
    var rest := o[5..];
    assert NameLen(rest) == 0;
    NameLenOne('k', rest);
    NameLenOne('s', ['k'] + rest);
    NameLenOne('i', ['s'] + (['k'] + rest));
    NameLenOne('d', ['i'] + (['s'] + (['k'] + rest)));
    assert o == "<disk" + rest;
    Spelled(rest);
  }

  // ----- The block -----

  /** Driver, source and boot order, in that order. */
  function Elements(b: string, v: Volume): string {
    var driven := ReplaceOrInsert(DRIVER, DriverElement(v.format), [], b);
    var sourced := ReplaceOrInsert(SOURCE, SourceElement(v), [DRIVER], driven);
    ReplaceOrInsert(BOOT, BOOT_ELEMENT, [TARGET, DRIVER], sourced)
  }

  /** patchDiskBlock; none on text that is no disk. */
  function PatchDiskBlock(b: string, v: Volume): Option<string> {
    var open := OpenTag(b);
    if open == [] then None else Some(Elements(SetAttribute(open, "type", "volume") + b[|open|..], v))
  }

  /** What happens between the opening and the closing tag. */
  function PatchInside(x: string, v: Volume): string {
    Inside(BOOT, BOOT_ELEMENT, [TARGET, DRIVER],
      Inside(SOURCE, SourceElement(v), [DRIVER],
        Inside(DRIVER, DriverElement(v.format), [], x)))
  }

  lemma DiskTagsForeign(o: string)
    requires IsDiskTag(o)
    ensures Foreign(DRIVER, o, CLOSE) && Foreign(SOURCE, o, CLOSE) && Foreign(BOOT, o, CLOSE) && Foreign(TARGET, o, CLOSE)
    ensures Foreign(READONLY, o, CLOSE) && Foreign(END, o, [])
  {
    PatternsProper();
    assert o[1] == 'd' && o[2] == 'i' && CLOSE[1] == '/';
  }

  lemma CloseIsTag()
    ensures IsTag(CLOSE)
  {
  }

  lemma VolumeText()
    ensures XmlAttr("volume") == "volume"
    ensures AttributeName("type") && PlainValue("volume") && NoAngle("volume") && '=' !in "volume"
  {
    EscapeNothing("volume");
  }

  lemma TypeVolume(o: string)
    requires IsDiskTag(o)
    ensures IsDiskTag(SetAttribute(o, "type", "volume"))
    ensures AttributeName("type") && PlainValue(XmlAttr("volume")) && '=' !in XmlAttr("volume")
  {
    VolumeText();
    SetKeepsTag(o, "type", "volume");
  }

  lemma {:induction false} EscapeNothing(s: string)
    requires forall i | 0 <= i < |s| :: WordChar(s[i])
    ensures XmlAttr(s) == s
  {
    if s != [] {
      EscapeNothing(s[1..]);
      assert s == [s[0]] + s[1..];
    }
  }

  lemma PatchTags(x: string, v: Volume)
    requires Clean(x) && NoReferences(v)
    ensures
      var x1 := Inside(DRIVER, DriverElement(v.format), [], x);
      var x2 := Inside(SOURCE, SourceElement(v), [DRIVER], x1);
      && Clean(x1) && Effect(DRIVER, DriverElement(v.format), TagsOf(x), TagsOf(x1))
      && Clean(x2) && Effect(SOURCE, SourceElement(v), TagsOf(x1), TagsOf(x2))
      && Clean(PatchInside(x, v)) && Effect(BOOT, BOOT_ELEMENT, TagsOf(x2), TagsOf(PatchInside(x, v)))
  {
    ElementsFit(v);
    ElementsPlain(v);
    PatternsProper();
    var x1 := Inside(DRIVER, DriverElement(v.format), [], x);
    var x2 := Inside(SOURCE, SourceElement(v), [DRIVER], x1);
    ThreeInside(x, x1, x2, DriverElement(v.format), SourceElement(v), BOOT_ELEMENT);
  }

  lemma ThreeInside(x: string, x1: string, x2: string, rd: string, rs: string, rb: string)
    requires Clean(x) && x1 == Inside(DRIVER, rd, [], x) && x2 == Inside(SOURCE, rs, [DRIVER], x1)
    requires IsTag(rd) && IsTag(rs) && IsTag(rb) && NoReference(rd) && NoReference(rs) && NoReference(rb)
    ensures Clean(x1) && Effect(DRIVER, rd, TagsOf(x), TagsOf(x1))
    ensures Clean(x2) && Effect(SOURCE, rs, TagsOf(x1), TagsOf(x2))
    ensures
      var x3 := Inside(BOOT, rb, [TARGET, DRIVER], x2);
      Clean(x3) && Effect(BOOT, rb, TagsOf(x2), TagsOf(x3))
  {
    PatternsProper();
    InsideTags(DRIVER, rd, [], x);
    InsideTags(SOURCE, rs, [DRIVER], x1);
    InsideTags(BOOT, rb, [TARGET, DRIVER], x2);
  }

  lemma DriverInBlock(t: string, x: string, v: Volume)
    requires IsDiskTag(t) && Clean(x)
    ensures ReplaceOrInsert(DRIVER, DriverElement(v.format), [], t + x + CLOSE)
         == t + Inside(DRIVER, DriverElement(v.format), [], x) + CLOSE
  {
    CloseIsTag();
    DiskTagsForeign(t);
    RewriteInBlock(DRIVER, DriverElement(v.format), [], t, x, CLOSE);
  }

  lemma SourceInBlock(t: string, x: string, v: Volume)
    requires IsDiskTag(t) && Clean(x)
    ensures ReplaceOrInsert(SOURCE, SourceElement(v), [DRIVER], t + x + CLOSE)
         == t + Inside(SOURCE, SourceElement(v), [DRIVER], x) + CLOSE
  {
    CloseIsTag();
    DiskTagsForeign(t);
    RewriteInBlock(SOURCE, SourceElement(v), [DRIVER], t, x, CLOSE);
  }

  lemma BootInBlock(t: string, x: string)
    requires IsDiskTag(t) && Clean(x)
    ensures ReplaceOrInsert(BOOT, BOOT_ELEMENT, [TARGET, DRIVER], t + x + CLOSE)
         == t + Inside(BOOT, BOOT_ELEMENT, [TARGET, DRIVER], x) + CLOSE
  {
    CloseIsTag();
    DiskTagsForeign(t);
    RewriteInBlock(BOOT, BOOT_ELEMENT, [TARGET, DRIVER], t, x, CLOSE);
  }

  /** The three element operations on a block, whatever its opening tag. */
  lemma PatchElements(t: string, x: string, v: Volume)
    requires IsDiskTag(t) && Clean(x) && NoReferences(v)
    ensures Elements(t + x + CLOSE, v) == t + PatchInside(x, v) + CLOSE
  {
    PatchTags(x, v);
    var x1 := Inside(DRIVER, DriverElement(v.format), [], x);
    DriverInBlock(t, x, v);
    SourceInBlock(t, x1, v);
    BootInBlock(t, Inside(SOURCE, SourceElement(v), [DRIVER], x1));
  }

  lemma Retagged(o: string, t: string, x: string)
    requires IsDiskTag(o)
    ensures OpenTag(o + x + CLOSE) == o && o != [] && t + (o + x + CLOSE)[|o|..] == t + x + CLOSE
  {
    FrontOfBlock([], o, x, CLOSE);
    assert (o + x + CLOSE)[|o|..] == x + CLOSE;
    assert t + (x + CLOSE) == t + x + CLOSE;
  }

  /** On a disk block: the opening tag gets its type, and the rest happens between the tags. */
  lemma PatchForm(o: string, x: string, v: Volume)
    requires IsDiskTag(o) && Clean(x) && NoReferences(v)
    ensures PatchDiskBlock(o + x + CLOSE, v) == Some(SetAttribute(o, "type", "volume") + PatchInside(x, v) + CLOSE)
  {
    TypeVolume(o);
    var t := SetAttribute(o, "type", "volume");
    Retagged(o, t, x);
    PatchElements(t, x, v);
  }

  /** The inside of a patched block has only the new driver, source and boot elements, and the other kinds of element
      it had before. */
  lemma PatchedElements(x: string, v: Volume)
    requires Clean(x) && NoReferences(v)
    ensures
      var tags := TagsOf(PatchInside(x, v));
      && AllAre(DriverElement(v.format), Select(DRIVER, tags))
      && AllAre(SourceElement(v), Select(SOURCE, tags))
      && AllAre(BOOT_ELEMENT, Select(BOOT, tags))
      && Select(TARGET, tags) == Select(TARGET, TagsOf(x))
      && Select(END, tags) == Select(END, TagsOf(x))
  {
    PatchTags(x, v);
    ElementsFit(v);
    PatternsApart();
    var x1 := Inside(DRIVER, DriverElement(v.format), [], x);
    var x2 := Inside(SOURCE, SourceElement(v), [DRIVER], x1);
    var t0, t1, t2, t3 := TagsOf(x), TagsOf(x1), TagsOf(x2), TagsOf(PatchInside(x, v));
    EffectOnItself(DRIVER, DriverElement(v.format), t0, t1);
    EffectOnItself(SOURCE, SourceElement(v), t1, t2);
    EffectOnItself(BOOT, BOOT_ELEMENT, t2, t3);
    EffectOnOthers(SOURCE, DRIVER, SourceElement(v), t1, t2);
    EffectOnOthers(BOOT, DRIVER, BOOT_ELEMENT, t2, t3);
    EffectOnOthers(BOOT, SOURCE, BOOT_ELEMENT, t2, t3);
    EffectOnOthers(DRIVER, TARGET, DriverElement(v.format), t0, t1);
    EffectOnOthers(SOURCE, TARGET, SourceElement(v), t1, t2);
    EffectOnOthers(BOOT, TARGET, BOOT_ELEMENT, t2, t3);
    EffectOnOthers(DRIVER, END, DriverElement(v.format), t0, t1);
    EffectOnOthers(SOURCE, END, SourceElement(v), t1, t2);
    EffectOnOthers(BOOT, END, BOOT_ELEMENT, t2, t3);
  }

  lemma PatchInsideTwice(x: string, v: Volume)
    requires Clean(x) && NoReferences(v)
    ensures PatchInside(PatchInside(x, v), v) == PatchInside(x, v)
  {
    var y := PatchInside(x, v);
    PatchTags(x, v);
    PatchedElements(x, v);
    ElementsPlain(v);
    NothingToDo(DRIVER, DriverElement(v.format), [], y);
    NothingToDo(SOURCE, SourceElement(v), [DRIVER], y);
    NothingToDo(BOOT, BOOT_ELEMENT, [TARGET, DRIVER], y);
  }

  /** Setting the type of a tag twice is setting it once, unless `type='` is left open in it. */
  predicate TypeSettles(o: string) {
    HasQuoted(o, "type", '\'', false) || HasQuoted(o, "type", '"', false) || !HasStart(o, "type", '\'', false)
  }

  /** On a disk tag that is exactly when it does. */
  lemma TypeTwice(o: string)
    requires IsDiskTag(o)
    ensures
      var t := SetAttribute(o, "type", "volume");
      IsDiskTag(t) && (SetAttribute(t, "type", "volume") == t <==> TypeSettles(o))
  {
    TypeVolume(o);
    DiskName(o);
    SetAttributeTwice(o, "type", "volume");
  }

  /** Patching a block twice is patching it once exactly when its type settles. */
  lemma PatchBlockTwice(o: string, x: string, v: Volume)
    requires IsDiskTag(o) && Clean(x) && NoReferences(v)
    ensures PatchDiskBlock(o + x + CLOSE, v).Some?
    ensures var once := PatchDiskBlock(o + x + CLOSE, v).value; PatchDiskBlock(once, v) == Some(once) <==> TypeSettles(o)
  {
    TypeTwice(o);
    var t, y := SetAttribute(o, "type", "volume"), PatchInside(x, v);
    PatchForm(o, x, v);
    PatchTags(x, v);
    PatchForm(t, y, v);
    PatchInsideTwice(x, v);
    OtherTag(SetAttribute(t, "type", "volume"), t, y);
  }

  lemma OtherTag(t: string, o: string, y: string)
    ensures t + y + CLOSE == o + y + CLOSE <==> t == o
  {
    Assoc(t, y, CLOSE);
    Assoc(o, y, CLOSE);
    Between([], t, o, y + CLOSE);
    assert [] + t == t && [] + o == o;
  }

  // ----- Names with a dollar sign -----

  lemma {:induction false} ExpandBehind(a: string, t: string, w: string)
    requires forall i | 0 <= i < |a| :: a[i] != '$'
    ensures Expand(a + t, [w]) == a + Expand(t, [w])
  {
    if a == [] {
      assert a + t == t;
    } else {
      assert (a + t)[..1] == a[..1] && (a + t)[1..] == a[1..] + t;
      ExpandBehind(a[1..], t, w);
      Assoc(a[..1], a[1..], Expand(t, [w]));
      assert a[..1] + a[1..] == a;
    }
  }

  lemma TagText(t: string)
    requires IsTag(t)
    ensures t[0] == '<' && '<' !in t[1..] && '<' in t
  {
    assert forall i | 0 <= i < |t[1..]| :: t[1..][i] == t[i + 1];
  }

  /** Where there is no source yet, a second run leaves the new one alone exactly when its names make no reference:
      the first run inserts the element, the second replaces it by its expansion. */
  lemma SourceStaysExactly(v: Volume, x: string)
    requires Clean(x) && Select(SOURCE, TagsOf(x)) == []
    ensures
      var r := SourceElement(v);
      var once := Inside(SOURCE, r, [], x);
      && once == "\n      " + r + x
      && (Inside(SOURCE, r, [], once) == once <==>
            if v.pool != "" && v.name != "" then RefFree(v.pool) && RefFree(v.name) else RefFree(v.path))
  {
    var r := SourceElement(v);
    SourceFits(v);
    SourceReferences(v);
    InsertThenReplace(r, x);
    TagText(r);
    TagExpandsToItself(r, r);
    Between(INDENT, Expand(r, [r]), r, x);
  }

  /** Where there is a source, whatever it is, the new one comes out as it was meant exactly when its names make no
      reference: a reference to a group that does not exist is dropped, and `$0` brings the old element. */
  lemma SourceReplacedExactly(v: Volume, u: string, m: string, z: string)
    requires Clean(u) && IsTag(m) && Fits(SOURCE, m) && Clean(z)
    requires Select(SOURCE, TagsOf(u)) == [] && Select(SOURCE, TagsOf(z)) == []
    ensures
      var r := SourceElement(v);
      Inside(SOURCE, r, [], u + (m + z)) == u + r + z <==>
      if v.pool != "" && v.name != "" then RefFree(v.pool) && RefFree(v.name) else RefFree(v.path)
  {
    var r := SourceElement(v);
    SourceReplaced(r, u, m, z);
    SourceFits(v);
    TagText(r);
    TagText(m);
    TagExpandsToItself(r, m);
    SourceReferences(v);
    Between(u, Expand(r, [m]), r, z);
  }

  lemma SourceReplaced(r: string, u: string, m: string, z: string)
    requires Clean(u) && IsTag(m) && Fits(SOURCE, m) && Clean(z)
    requires Select(SOURCE, TagsOf(u)) == [] && Select(SOURCE, TagsOf(z)) == []
    ensures Inside(SOURCE, r, [], u + (m + z)) == u + Expand(r, [m]) + z
  {
    PatternsProper();
    MatchesAreTags(SOURCE, u);
    MatchesAreTags(SOURCE, z);
    JoinScan(SOURCE, u);
    JoinScan(SOURCE, z);
    CleanSettled(SOURCE, u);
    ScanConcat(SOURCE, u, m + z);
    ScanTag(SOURCE, m, z);
    SubstitutePrefix(r, u, Next([], m, Tail(z)));
    var e := Expand(r, [m]);
    assert [] + e == e;
    Assoc(u, e, z);
  }

  lemma Between(a: string, e: string, r: string, z: string)
    ensures a + e + z == a + r + z <==> e == r
  {
    if a + e + z == a + r + z {
      assert |e| == |r|;
      assert e == (a + e + z)[|a|..|a| + |e|] && r == (a + r + z)[|a|..|a| + |r|];
    }
  }

  /** A reference by name to a group that does not exist disappears from the text. */
  lemma NameDropped(a: string, n: string, b: string, w: string)
    requires forall i | 0 <= i < |a| :: a[i] != '$'
    requires n != [] && n != "0" && NameLen(n) == |n| && (b == [] || !WordChar(b[0])) && NoReference(b)
    ensures Expand(a + ("$" + (n + b)), [w]) == a + b
  {
    ExpandBehind(a, "$" + (n + b), w);
    ExpandSame(b, [w]);
    NameGone(n, b, w);
  }

  /** Two dollars are inserted as they are, and one of them is lost by the next run. */
  lemma DollarIsLost(a: string, b: string, x: string)
    requires '$' !in a && '$' !in b && Clean(x) && Select(SOURCE, TagsOf(x)) == []
    requires IsTag(a + "$$" + b) && Fits(SOURCE, a + "$$" + b)
    ensures
      var once := Inside(SOURCE, a + "$$" + b, [], x);
      && once == INDENT + (a + "$$" + b) + x
      && Inside(SOURCE, a + "$$" + b, [], once) == INDENT + (a + "$" + b) + x
      && Inside(SOURCE, a + "$$" + b, [], once) != once
  {
    var r := a + "$$" + b;
    InsertThenReplace(r, x);
    DollarExpands(a, b, r);
    assert (INDENT + (a + "$" + b) + x) != INDENT + r + x by {
      assert |INDENT + (a + "$" + b) + x| < |INDENT + r + x|;
    }
  }

  lemma DollarExpands(a: string, b: string, w: string)
    requires '$' !in a && '$' !in b
    ensures Expand(a + "$$" + b, [w]) == a + "$" + b
  {
    var t := "$$" + b;
    assert t[2..] == b;
    ExpandPlain(b, [w]);
    Assoc(a, "$$", b);
    ExpandBehind(a, t, w);
    Assoc(a, "$", b);
  }

  /** An element inserted into a text without one is replaced by its own expansion. */
  lemma InsertThenReplace(r: string, x: string)
    requires Clean(x) && Select(SOURCE, TagsOf(x)) == [] && IsTag(r) && Fits(SOURCE, r)
    ensures Inside(SOURCE, r, [], x) == INDENT + r + x
    ensures Inside(SOURCE, r, [], INDENT + r + x) == INDENT + Expand(r, [r]) + x
  {
    PatternsProper();
    MatchesAreTags(SOURCE, x);
    JoinScan(SOURCE, x);
    ScanText(SOURCE, INDENT, r + x);
    ScanTag(SOURCE, r, x);
    Assoc(INDENT, r, x);
    SubstitutePrefix(r, INDENT, Next([], r, Scan(SOURCE, x)));
    var e := Expand(r, [r]);
    assert [] + e == e;
    Assoc(INDENT, e, x);
  }
}
