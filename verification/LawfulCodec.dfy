/**
 The laws that `ChatContent` asks of a JSON library can be met: a toy encoding that meets them.  Strings are written
 with a mark before each character, lists and maps with a mark before each element, and everything with an end mark.
 */
module LawfulCodec {
  import opened Options
  import opened ChatContent
  import opened Text

  ghost function WriteText(s: string): string {
    if s == "" then "." else ['+', s[0]] + WriteText(s[1..])
  }

  ghost function ReadText(t: string): Option<(string, string)> {
    if t == "" then None
    else if t[0] == '.' then Some(("", t[1..]))
    else if |t| == 1 then None
    else
      var tail := ReadText(t[2..]);
      if tail.None? then None else Some(([t[1]] + tail.value.0, tail.value.1))
  }

  lemma {:induction false} TextReadsBack(s: string, after: string)
    ensures ReadText(WriteText(s) + after) == Some((s, after))
  {
    var t := WriteText(s) + after;
    if s == "" {
      assert t[1..] == after;
    } else {
      TextReadsBack(s[1..], after);
      assert t[2..] == WriteText(s[1..]) + after;
      assert [s[0]] + s[1..] == s;
    }
  }

  /** Two texts, one after the other. */
  ghost function ReadPair(t: string): Option<(string, string, string)> {
    var first := ReadText(t);
    if first.None? then None
    else
      var second := ReadText(first.value.1);
      if second.None? then None else Some((first.value.0, second.value.0, second.value.1))
  }

  lemma PairReadsBack(a: string, b: string, after: string)
    ensures ReadPair(WriteText(a) + (WriteText(b) + after)) == Some((a, b, after))
  {
    TextReadsBack(a, WriteText(b) + after);
    TextReadsBack(b, after);
  }

  ghost function MarkOf(item: Item): string {
    match item
    case NotObject(_) => ""
    case Object(Missing, _) => "m"
    case Object(OtherHashable, _) => "h"
    case Object(Unhashable, _) => "u"
    case Object(Name(name), _) => "a" + name
  }

  ghost function TextOf(item: Item): string {
    if item.NotObject? then item.text else item.rest
  }

  ghost function ItemOf(mark: string, text: string): Item {
    if mark == "" then NotObject(text)
    else if mark[0] == 'm' then Object(Missing, text)
    else if mark[0] == 'h' then Object(OtherHashable, text)
    else if mark[0] == 'u' then Object(Unhashable, text)
    else Object(Name(mark[1..]), text)
  }

  lemma ItemOfMark(item: Item)
    ensures ItemOf(MarkOf(item), TextOf(item)) == item
  {
    if item.Object? && item.kind.Name? {
      assert MarkOf(item)[1..] == item.kind.name;
    }
  }

  ghost function WriteItems(items: seq<Item>): string {
    if items == [] then "."
    else "+" + (WriteText(MarkOf(items[0])) + (WriteText(TextOf(items[0])) + WriteItems(items[1..])))
  }

  ghost function ReadItems(t: string): Option<seq<Item>>
    decreases |t|
  {
    if t == "" then None
    else if t[0] == '.' then Some([])
    else
      var pair := ReadPair(t[1..]);
      if pair.None? || |pair.value.2| >= |t| then None
      else
        var tail := ReadItems(pair.value.2);
        if tail.None? then None else Some([ItemOf(pair.value.0, pair.value.1)] + tail.value)
  }

  lemma ItemReadsBack(item: Item, after: string, items: seq<Item>)
    requires ReadItems(after) == Some(items)
    ensures ReadItems("+" + (WriteText(MarkOf(item)) + (WriteText(TextOf(item)) + after))) == Some([item] + items)
  {
    var mark, text := MarkOf(item), TextOf(item);
    var pair := WriteText(mark) + (WriteText(text) + after);
    assert ("+" + pair)[1..] == pair;
    PairReadsBack(mark, text, after);
    ItemOfMark(item);
  }

  lemma {:induction false} ItemsReadBack(items: seq<Item>)
    ensures ReadItems(WriteItems(items)) == Some(items)
  {
    if items != [] {
      ItemsReadBack(items[1..]);
      ItemReadsBack(items[0], WriteItems(items[1..]), items[1..]);
      assert [items[0]] + items[1..] == items;
    }
  }

  ghost function SomeKey(m: map<string, string>): (k: string)
    requires m != map[]
    ensures k in m
  {
    var k :| k in m;
    k
  }

  ghost function WriteMap(m: map<string, string>): string
    decreases |m|
  {
    if m == map[] then "."
    else
      var k := SomeKey(m);
      "+" + (WriteText(k) + (WriteText(m[k]) + WriteMap(m - {k})))
  }

  ghost function ReadMap(t: string): Option<map<string, string>>
    decreases |t|
  {
    if t == "" then None
    else if t[0] == '.' then Some(map[])
    else
      var pair := ReadPair(t[1..]);
      if pair.None? || |pair.value.2| >= |t| then None
      else
        var tail := ReadMap(pair.value.2);
        if tail.None? then None else Some(tail.value[pair.value.0 := pair.value.1])
  }

  lemma {:induction false} MapReadsBack(m: map<string, string>)
    ensures ReadMap(WriteMap(m)) == Some(m)
    decreases |m|
  {
    if m != map[] {
      var k := SomeKey(m);
      var after := WriteMap(m - {k});
      assert WriteMap(m)[1..] == WriteText(k) + (WriteText(m[k]) + after);
      PairReadsBack(k, m[k], after);
      MapReadsBack(m - {k});
      assert (m - {k})[k := m[k]] == m;
    }
  }

  ghost function WriteOption(o: Option<string>): string {
    if o.None? then WriteText("") else WriteText("+" + o.value)
  }

  ghost function OptionOf(s: string): Option<string> {
    if s == "" then None else Some(s[1..])
  }

  /** A number as so many strokes. */
  ghost function Strokes(n: nat): (s: string)
    ensures |s| == n
  {
    seq(n, _ => '1')
  }

  ghost function IdOption(id: Option<RowId>): Option<string> {
    if id.None? then None else Some(Strokes(id.value))
  }

  ghost function WriteMeta(m: Metadata): string {
    WriteOption(IdOption(m.dbId)) + WriteOption(m.timestamp) + WriteMap(m.rest)
  }

  ghost function ReadMeta(t: string): ParsedMeta {
    var id := ReadText(t);
    if id.None? then BrokenMeta
    else
      var stamp := ReadText(id.value.1);
      if stamp.None? then BrokenMeta
      else
        var rest := ReadMap(stamp.value.1);
        if rest.None? then BrokenMeta
        else
          var dbId := OptionOf(id.value.0);
          MetaObject(Metadata(if dbId.None? then None else Some(|dbId.value|), OptionOf(stamp.value.0), rest.value))
  }

  lemma OptionReadsBack(o: Option<string>, after: string)
    ensures ReadText(WriteOption(o) + after).Some?
    ensures var r := ReadText(WriteOption(o) + after).value; OptionOf(r.0) == o && r.1 == after
  {
    TextReadsBack(if o.None? then "" else "+" + o.value, after);
    assert o.Some? ==> ("+" + o.value)[1..] == o.value;
  }

  /** A text that reads as the three parts of `m`, one after the other, reads as `m`. */
  lemma PartsReadBack(m: Metadata, t: string, afterId: string, afterStamp: string)
    requires ReadText(t).Some? && ReadText(t).value.1 == afterId && OptionOf(ReadText(t).value.0) == IdOption(m.dbId)
    requires ReadText(afterId).Some? && ReadText(afterId).value.1 == afterStamp
    requires OptionOf(ReadText(afterId).value.0) == m.timestamp && ReadMap(afterStamp) == Some(m.rest)
    ensures t != "" && ReadMeta(t) == MetaObject(m)
  {
  }

  lemma MetaReadsBack(m: Metadata)
    ensures WriteMeta(m) != "" && ReadMeta(WriteMeta(m)) == MetaObject(m)
  {
    var rest := WriteMap(m.rest);
    var tail := WriteOption(m.timestamp) + rest;
    assert WriteMeta(m) == WriteOption(IdOption(m.dbId)) + tail;
    OptionReadsBack(IdOption(m.dbId), tail);
    OptionReadsBack(m.timestamp, rest);
    MapReadsBack(m.rest);
    PartsReadBack(m, WriteMeta(m), tail, rest);
  }

  const HEAD := "[{\"type\""

  ghost function Toy(): Codec {
    Codec(
      items => HEAD + WriteItems(items),
      (t: string) =>
        if !(HEAD <= t) || ReadItems(t[|HEAD|..]).None? then NotJson else JsonArray(ReadItems(t[|HEAD|..]).value),
      m => WriteMeta(m),
      t => ReadMeta(t),
      _ => "")
  }

  lemma HeadContainsType(s: string)
    ensures Contains(HEAD + s, "\"type\"") && "[{" <= HEAD + s
  {
    assert (HEAD + s)[2..8] == "\"type\"";
    assert At(HEAD + s, "\"type\"", 2);
  }

  lemma LawfulCodecExists() returns (c: Codec)
    ensures Lawful(c)
  {
    c := Toy();
    forall items: seq<Item> ensures c.loads(c.dumps(items)) == JsonArray(items) {
      ItemsReadBack(items);
      assert (HEAD + WriteItems(items))[|HEAD|..] == WriteItems(items);
    }
    forall items: seq<Item> ensures "[{" <= c.dumps(items) && Contains(c.dumps(items), "\"type\"") {
      HeadContainsType(WriteItems(items));
    }
    forall m ensures c.dumpMeta(m) != "" && c.loadMeta(c.dumpMeta(m)) == MetaObject(m) {
      MetaReadsBack(m);
    }
  }
}
