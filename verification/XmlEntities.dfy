/**
 Entity decoding of the model description: five search-and-replace passes over one string, which
 together act like a single left-to-right decoder, exactly if the ampersand comes last.
 */
module XmlEntities {
  import opened Common

  datatype Entity = Entity(from: string, to: char)

  const AMPERSAND := Entity("&amp;", '&')

  /** The replacement table, in the order in which the passes run. */
  const ENTITIES: seq<Entity> := [
    Entity("&quot;", '\"'),
    Entity("&apos;", '\''),
    Entity("&lt;", '<'),
    Entity("&gt;", '>'),
    AMPERSAND
  ]

  type Table = seq<Entity>

  // ---------------------------------------------------------------------------------------------
  // Specification

  /** The entity of the table that `text` starts with. */
  function EntityAt(table: Table, text: string): (found: Option<Entity>)
    ensures found.Some? ==> found.value in table && found.value.from <= text
    ensures found.None? <==> forall entity | entity in table :: !(entity.from <= text)
  {
    if table == [] then None
    else
      var n := |table| - 1;
      var earlier := EntityAt(table[..n], text);
      if earlier.Some? then earlier
      else if table[n].from <= text then Some(table[n])
      else assert forall entity | entity in table :: entity in table[..n] || entity == table[n]; None
  }

  /** Every entity is '&' and then characters that are not. */
  predicate IsEntity(entity: Entity) {
    |entity.from| > 3 && entity.from[0] == '&' && forall i | 1 <= i < |entity.from| :: entity.from[i] != '&'
  }

  ghost predicate AreEntities(table: Table) {
    forall entity | entity in table :: IsEntity(entity)
  }

  /** One left-to-right scan that decodes the entities of the table and never looks back at its output. */
  function Scanned(table: Table, text: string): string
    requires AreEntities(table)
    decreases |text|
  {
    if text == "" then ""
    else
      match EntityAt(table, text)
      case Some(entity) => [entity.to] + Scanned(table, text[|entity.from|..])
      case None => [text[0]] + Scanned(table, text[1..])
  }

  lemma TableHasEntities()
    ensures AreEntities(ENTITIES)
  {
  }

  /** The single-scan decoder of all five entities. */
  function Decoded(text: string): string {
    TableHasEntities();
    Scanned(ENTITIES, text)
  }

  /** What one pass computes: every occurrence of `from`, left to right, becomes `to`. */
  function Replaced(text: string, entity: Entity): string
    requires IsEntity(entity)
    decreases |text|
  {
    if text == "" then ""
    else if entity.from <= text then [entity.to] + Replaced(text[|entity.from|..], entity)
    else [text[0]] + Replaced(text[1..], entity)
  }

  /** The passes for the entities of a table, one after the other. */
  function Passes(table: Table, text: string): string
    requires AreEntities(table)
  {
    if table == [] then text
    else
      var n := |table| - 1;
      assert IsEntity(table[n]);
      Replaced(Passes(table[..n], text), table[n])
  }

  // ---------------------------------------------------------------------------------------------
  // The loops of the source

  /** `std::string::find` from a position. */
  function Find(text: string, pattern: string, position: nat): (found: Option<nat>)
    requires position <= |text|
    ensures found.Some? ==> position <= found.value <= |text| && pattern <= text[found.value..]
    ensures found.Some? ==> forall i | position <= i < found.value :: !(pattern <= text[i..])
    ensures found.None? ==> forall i | position <= i <= |text| :: !(pattern <= text[i..])
    decreases |text| - position
  {
    if pattern <= text[position..] then Some(position)
    else if position == |text| then None
    else Find(text, pattern, position + 1)
  }

  method Decode(input: string) returns (text: string)
    ensures text == Decoded(input)
  {
    hide Replaced, Scanned, Passes, EntityAt;
    TableHasEntities();
    text := input;
    NoPasses(input);
    for k := 0 to |ENTITIES|
      invariant AreEntities(ENTITIES[..k]) && text == Passes(ENTITIES[..k], input)
    {
      var entity := ENTITIES[k];
      assert IsEntity(entity);
      ghost var before := text;
      var position := 0;
      var found := Find(text, entity.from, position);
      assert text[..0] + Replaced(text[0..], entity) == Replaced(text, entity) by {
        assert text[0..] == text;
      }
      while found.Some?
        invariant position <= |text| && found == Find(text, entity.from, position)
        invariant text[..position] + Replaced(text[position..], entity) == Replaced(before, entity)
        decreases |text| - position
      {
        var next := found.value;
        ReplaceNext(text, entity, position, next);
        text := text[..next] + [entity.to] + text[next + |entity.from|..];
        position := next + 1;
        found := Find(text, entity.from, position);
      }
      NothingLeft(text, entity, position);
      OneMorePass(k, input);
    }
    assert ENTITIES[..|ENTITIES|] == ENTITIES;
    PassesAreOneScan(input);
  }

  lemma NoPasses(text: string)
    ensures Passes(ENTITIES[..0], text) == text
  {
  }

  lemma OneMorePass(k: nat, text: string)
    requires k < |ENTITIES|
    ensures AreEntities(ENTITIES[..k]) && AreEntities(ENTITIES[..k + 1]) && IsEntity(ENTITIES[k])
    ensures Passes(ENTITIES[..k + 1], text) == Replaced(Passes(ENTITIES[..k], text), ENTITIES[k])
  {
    hide Replaced;
    TableHasEntities();
    assert ENTITIES[..k + 1][..k] == ENTITIES[..k] && IsEntity(ENTITIES[k]);
  }

  /** One turn of the inner loop. */
  lemma ReplaceNext(text: string, entity: Entity, position: nat, next: nat)
    requires IsEntity(entity) && position <= next <= |text| && entity.from <= text[next..]
    requires forall i | position <= i < next :: !(entity.from <= text[i..])
    ensures var replaced := text[..next] + [entity.to] + text[next + |entity.from|..];
            replaced[..next + 1] + Replaced(replaced[next + 1..], entity)
            == text[..position] + Replaced(text[position..], entity)
  {
    hide Replaced, IsEntity;
    var replaced := text[..next] + [entity.to] + text[next + |entity.from|..];
    var rest, m := text[position..], next - position;
    forall i | 0 <= i <= m ensures rest[i..] == text[position + i..] {}
    SkipUnmatched(rest, entity, m);
    ReplacedHead(text[next..], entity);
    assert text[next..][|entity.from|..] == text[next + |entity.from|..] == replaced[next + 1..];
    var tail := Replaced(replaced[next + 1..], entity);
    assert replaced[..next + 1] == text[..position] + (rest[..m] + [entity.to]);
    Associate(text[..position], rest[..m] + [entity.to], tail);
    Associate(rest[..m], [entity.to], tail);
  }

  lemma ReplacedHead(text: string, entity: Entity)
    requires IsEntity(entity) && entity.from <= text
    ensures Replaced(text, entity) == [entity.to] + Replaced(text[|entity.from|..], entity)
  {
  }

  lemma NothingLeft(text: string, entity: Entity, position: nat)
    requires IsEntity(entity) && position <= |text|
    requires forall i | position <= i <= |text| :: !(entity.from <= text[i..])
    ensures text[..position] + Replaced(text[position..], entity) == text
  {
    hide IsEntity;
    var rest := text[position..];
    forall i | 0 <= i < |rest| ensures rest[i..] == text[position + i..] {}
    SkipUnmatched(rest, entity, |rest|);
  }

  lemma {:induction false} SkipUnmatched(text: string, entity: Entity, n: nat)
    requires IsEntity(entity) && n <= |text|
    requires forall i | 0 <= i < n :: !(entity.from <= text[i..])
    ensures Replaced(text, entity) == text[..n] + Replaced(text[n..], entity)
  {
    hide IsEntity;
    assert text[0..] == text;
    if n > 0 {
      var rest := text[1..];
      assert rest[n - 1..] == text[n..] && text[..n] == [text[0]] + rest[..n - 1];
      assert Replaced(rest, entity) == rest[..n - 1] + Replaced(text[n..], entity) by {
        forall i | 0 <= i < n - 1 ensures rest[i..] == text[i + 1..] {}
        SkipUnmatched(rest, entity, n - 1);
      }
      Associate([text[0]], rest[..n - 1], Replaced(text[n..], entity));
    }
  }

  // ---------------------------------------------------------------------------------------------
  // When passes agree with a single scan

  /** No entity is spelled with the decoding of an earlier one, which could complete it. */
  ghost predicate InGoodOrder(table: Table) {
    && AreEntities(table)
    && forall i, k | 0 <= i < k < |table| :: table[i].to !in table[k].from
  }

  lemma {:induction false} ScanningForNothing(text: string)
    ensures Scanned([], text) == text
  {
    if text != "" {
      ScanningForNothing(text[1..]);
    }
  }

  /** Where no entity starts, a scan copies. */
  lemma {:induction false} ScanCopies(table: Table, text: string, n: nat)
    requires AreEntities(table) && n <= |text|
    requires forall i | 0 <= i < n :: EntityAt(table, text[i..]).None?
    ensures Scanned(table, text) == text[..n] + Scanned(table, text[n..])
  {
    hide AreEntities, EntityAt;
    assert text[0..] == text;
    if n > 0 {
      var rest := text[1..];
      assert rest[n - 1..] == text[n..] && text[..n] == [text[0]] + rest[..n - 1];
      assert Scanned(table, rest) == rest[..n - 1] + Scanned(table, text[n..]) by {
        forall i | 0 <= i < n - 1 ensures rest[i..] == text[i + 1..] {}
        ScanCopies(table, rest, n - 1);
      }
      Associate([text[0]], rest[..n - 1], Scanned(table, text[n..]));
    }
  }

  /** A scan never makes up text: what it outputs without decoding was already in its input. */
  lemma {:induction false} ScanReflects(table: Table, text: string, t: string)
    requires AreEntities(table) && t <= Scanned(table, text)
    requires forall entity | entity in table :: entity.to !in t
    ensures t <= text
  {
    hide EntityAt;
    if t != "" {
      assert t[0] == Scanned(table, text)[0] && t[0] in t;
      if EntityAt(table, text).Some? {
        assert false;
      } else {
        assert t[1..] <= Scanned(table, text)[1..];
        ScanReflects(table, text[1..], t[1..]);
      }
    }
  }

  /** One more pass over the output of a scan is a scan for one more entity. */
  lemma {:induction false} NextPass(table: Table, entity: Entity, text: string)
    requires InGoodOrder(table + [entity]) && AreEntities(table) && IsEntity(entity)
    requires AreEntities(table + [entity])
    ensures Replaced(Scanned(table, text), entity) == Scanned(table + [entity], text)
    decreases |text|
  {
    hide EntityAt, InGoodOrder;
    if text != "" {
      var from, output, more := entity.from, Scanned(table, text), table + [entity];
      LaterEntity(table, entity, text);
      forall earlier | earlier in table ensures earlier.to !in from {
        EarlierEntity(table, entity, earlier);
      }
      match EntityAt(table, text)
      case Some(earlier) =>
        assert output[0] == earlier.to != from[0];
        assert output[1..] == Scanned(table, text[|earlier.from|..]);
        NextPass(table, entity, text[|earlier.from|..]);
      case None =>
        if from <= text {
          forall i | 0 <= i < |from| ensures EntityAt(table, text[i..]).None? {
            if i == 0 {
              assert text[0..] == text;
            } else {
              NothingAt(table, text[i..]);
            }
          }
          ScanCopies(table, text, |from|);
          assert output[|from|..] == Scanned(table, text[|from|..]);
          NextPass(table, entity, text[|from|..]);
        } else {
          if from <= output {
            ScanReflects(table, text, from);
            assert false;
          }
          assert output[1..] == Scanned(table, text[1..]);
          NextPass(table, entity, text[1..]);
        }
    }
  }

  lemma LaterEntity(table: Table, entity: Entity, text: string)
    ensures EntityAt(table + [entity], text) ==
            if EntityAt(table, text).Some? then EntityAt(table, text)
            else if entity.from <= text then Some(entity)
            else None
  {
    assert (table + [entity])[..|table|] == table;
  }

  lemma EarlierEntity(table: Table, entity: Entity, earlier: Entity)
    requires InGoodOrder(table + [entity]) && earlier in table
    ensures earlier.to !in entity.from
  {
    var i :| 0 <= i < |table| && table[i] == earlier;
    assert (table + [entity])[i] == earlier && (table + [entity])[|table|] == entity;
  }

  /** No entity starts where there is no '&'. */
  lemma NothingAt(table: Table, text: string)
    requires AreEntities(table) && (text == "" || text[0] != '&')
    ensures EntityAt(table, text) == None
  {
    hide EntityAt;
    forall entity | entity in table ensures !(entity.from <= text) {
      assert IsEntity(entity);
    }
  }

  lemma {:induction false} PassesScan(table: Table, text: string)
    requires InGoodOrder(table)
    ensures Passes(table, text) == Scanned(table, text)
  {
    if table == [] {
      ScanningForNothing(text);
    } else {
      var n := |table| - 1;
      var fewer, last := table[..n], table[n];
      assert table == fewer + [last] && IsEntity(last);
      hide Scanned, Replaced;
      PassesScan(fewer, text);
      NextPass(fewer, last, text);
    }
  }

  /** The five replacements in sequence equal one left-to-right decoding, on every string. */
  lemma PassesAreOneScan(text: string)
    ensures AreEntities(ENTITIES) && Passes(ENTITIES, text) == Decoded(text)
  {
    hide Passes, Scanned;
    PassesScan(ENTITIES, text);
  }

  // ---------------------------------------------------------------------------------------------
  // Any other order

  /** An order of the five passes. */
  ghost predicate IsOrder(table: Table) {
    && (forall i, j | 0 <= i < j < |table| :: table[i] != table[j])
    && (forall entity :: entity in table <==> entity in ENTITIES)
  }

  lemma OrderHasEntities(table: Table)
    requires IsOrder(table)
    ensures AreEntities(table) && AMPERSAND in table && |table| > 0
  {
    TableHasEntities();
    assert ENTITIES[4] == AMPERSAND;
  }

  /** No text starts with two different entities. */
  lemma OnlyEntity(text: string, x: Entity, y: Entity)
    requires x in ENTITIES && y in ENTITIES && x.from <= text && y.from <= text
    ensures x == y
  {
    assert x.from[1] == text[1] == y.from[1] && x.from[2] == text[2] == y.from[2];
  }

  /** So a scan does not depend on the order of its table. */
  lemma {:induction false} ScanIgnoresOrder(table: Table, text: string)
    requires IsOrder(table) && AreEntities(table)
    ensures Scanned(table, text) == Decoded(text)
  {
    hide EntityAt, AreEntities;
    TableHasEntities();
    if text != "" {
      var x, y := EntityAt(table, text), EntityAt(ENTITIES, text);
      if x.Some? && y.Some? {
        OnlyEntity(text, x.value, y.value);
      }
      assert x == y;
      if x.Some? {
        assert IsEntity(x.value) by {
          OrderHasEntities(table);
        }
        ScanIgnoresOrder(table, text[|x.value.from|..]);
      } else {
        ScanIgnoresOrder(table, text[1..]);
      }
    }
  }

  lemma AmpersandLastIsGood(table: Table)
    requires IsOrder(table) && |table| > 0 && table[|table| - 1] == AMPERSAND
    ensures InGoodOrder(table)
  {
    OrderHasEntities(table);
    forall i, k | 0 <= i < k < |table| ensures table[i].to !in table[k].from {
      assert table[i] in ENTITIES && table[k] in ENTITIES && table[i] != table[|table| - 1];
      PlainDecoding(table[i], table[k]);
    }
  }

  lemma PlainDecoding(x: Entity, y: Entity)
    requires x in ENTITIES && y in ENTITIES && x != AMPERSAND
    ensures x.to !in y.from
  {
  }

  /** The text of an entity whose ampersand is itself escaped. */
  function EscapedTwice(entity: Entity): string
    requires IsEntity(entity)
  {
    AMPERSAND.from + entity.from[1..]
  }

  /** A text with one '&', at its start, is left alone by a pass for an entity that it does not start with. */
  lemma PassLeaves(text: string, entity: Entity)
    requires IsEntity(entity) && !(entity.from <= text)
    requires forall i | 1 <= i < |text| :: text[i] != '&'
    ensures Replaced(text, entity) == text
  {
    hide Replaced;
    forall i | 0 <= i <= |text| ensures !(entity.from <= text[i..]) {
      if i == 0 {
        assert text[0..] == text;
      } else {
        assert i < |text| ==> text[i..][0] == text[i];
      }
    }
    NothingLeft(text, entity, 0);
    assert text[0..] == text && text[..0] + Replaced(text, entity) == Replaced(text, entity);
  }

  /** What a single pass does to the text, and to the entity that it stands for. */
  lemma PassOverEscaped(entity: Entity, pass: Entity)
    requires entity in ENTITIES && entity != AMPERSAND && pass in ENTITIES && pass != entity
    ensures IsEntity(entity) && IsEntity(pass)
    ensures Replaced(EscapedTwice(entity), pass) == if pass == AMPERSAND then entity.from else EscapedTwice(entity)
    ensures Replaced(entity.from, pass) == entity.from
  {
    hide Replaced;
    TableHasEntities();
    assert IsEntity(entity) && IsEntity(pass) && IsEntity(AMPERSAND) && AMPERSAND in ENTITIES by {
      assert ENTITIES[4] == AMPERSAND;
    }
    var text := EscapedTwice(entity);
    if pass.from <= entity.from {
      OnlyEntity(entity.from, pass, entity);
      assert false;
    }
    PassLeaves(entity.from, pass);
    if pass == AMPERSAND {
      var rest := entity.from[1..];
      assert text[|AMPERSAND.from|..] == rest;
      ReplacedHead(text, AMPERSAND);
      assert Replaced(rest, AMPERSAND) == rest by {
        assert !(AMPERSAND.from <= rest);
        PassLeaves(rest, AMPERSAND);
      }
      assert ['&'] + rest == entity.from;
    } else {
      if pass.from <= text {
        OnlyEntity(text, pass, AMPERSAND);
        assert false;
      }
      PassLeaves(text, pass);
    }
  }

  /** As long as the entity's own pass is not reached, the text waits for the ampersand's. */
  lemma {:induction false} PassesOverEscaped(table: Table, entity: Entity)
    requires AreEntities(table) && entity in ENTITIES && entity != AMPERSAND && IsEntity(entity)
    requires forall pass | pass in table :: pass in ENTITIES && pass != entity
    ensures Passes(table, EscapedTwice(entity)) == if AMPERSAND in table then entity.from else EscapedTwice(entity)
  {
    hide Replaced, IsEntity, EscapedTwice;
    if table != [] {
      var n := |table| - 1;
      var fewer, last := table[..n], table[n];
      assert table == fewer + [last];
      PassesOverEscaped(fewer, entity);
      PassOverEscaped(entity, last);
    }
  }

  lemma DecodedEscaped(entity: Entity)
    requires entity in ENTITIES && IsEntity(entity)
    ensures Decoded(EscapedTwice(entity)) == entity.from
  {
    hide EntityAt;
    TableHasEntities();
    var text, rest := EscapedTwice(entity), entity.from[1..];
    assert AMPERSAND in ENTITIES by {
      assert ENTITIES[4] == AMPERSAND;
    }
    assert AMPERSAND.from <= text && text[|AMPERSAND.from|..] == rest;
    OnlyEntity(text, EntityAt(ENTITIES, text).value, AMPERSAND);
    assert Scanned(ENTITIES, rest) == rest by {
      forall i | 0 <= i < |rest| ensures EntityAt(ENTITIES, rest[i..]).None? {
        NothingAt(ENTITIES, rest[i..]);
      }
      ScanCopies(ENTITIES, rest, |rest|);
    }
    assert ['&'] + rest == entity.from;
  }

  /** With any other entity last, an entity whose ampersand is escaped is decoded twice. */
  lemma DecodesTwice(table: Table)
    requires IsOrder(table) && AreEntities(table) && |table| > 0 && table[|table| - 1] != AMPERSAND
    ensures IsEntity(table[|table| - 1])
    ensures Passes(table, EscapedTwice(table[|table| - 1])) != Decoded(EscapedTwice(table[|table| - 1]))
  {
    hide EscapedTwice, Decoded, Replaced, IsEntity;
    var n := |table| - 1;
    var fewer, last := table[..n], table[n];
    LastOfOrder(table);
    PassesOverEscaped(fewer, last);
    DecodedEscaped(last);
    assert Replaced(last.from, last) == [last.to] by {
      ReplacedHead(last.from, last);
      LongText(last);
      assert last.from[|last.from|..] == "";
    }
    assert |last.from| > 3 by {
      LongText(last);
    }
  }

  lemma LongText(entity: Entity)
    requires IsEntity(entity)
    ensures |entity.from| > 3 && Replaced("", entity) == ""
  {
  }

  lemma LastOfOrder(table: Table)
    requires IsOrder(table) && AreEntities(table) && |table| > 0 && table[|table| - 1] != AMPERSAND
    ensures var n := |table| - 1;
            && table[n] in ENTITIES && IsEntity(table[n])
            && AreEntities(table[..n]) && AMPERSAND in table[..n]
            && forall pass | pass in table[..n] :: pass in ENTITIES && pass != table[n]
  {
    hide IsEntity;
    var n := |table| - 1;
    OrderHasEntities(table);
    assert table == table[..n] + [table[n]];
    forall pass | pass in table[..n] ensures pass in ENTITIES && pass != table[n] {
      var i :| 0 <= i < n && table[i] == pass;
    }
  }

  /** The passes, in whatever order, equal the single scan on all texts exactly if the ampersand's is last. */
  lemma AmpersandLastIff(table: Table)
    requires IsOrder(table) && AreEntities(table) && |table| > 0
    ensures (forall text :: Passes(table, text) == Decoded(text)) <==> table[|table| - 1] == AMPERSAND
  {
    hide Passes, Scanned, IsOrder, Decoded;
    if table[|table| - 1] == AMPERSAND {
      AmpersandLastIsGood(table);
      forall text ensures Passes(table, text) == Decoded(text) {
        PassesScan(table, text);
        ScanIgnoresOrder(table, text);
      }
    } else {
      DecodesTwice(table);
    }
  }

  // ---------------------------------------------------------------------------------------------
  // What decoding means: section 4.6 of XML 1.0

  /** The reference by which a document writes a character that is special. */
  function Reference(c: char): Option<string> {
    if c == '&' then Some("&amp;")
    else if c == '<' then Some("&lt;")
    else if c == '>' then Some("&gt;")
    else if c == '\'' then Some("&apos;")
    else if c == '\"' then Some("&quot;")
    else None
  }

  /** A text with all special characters written as references. */
  function Escaped(text: string): string {
    if text == "" then ""
    else (if Reference(text[0]).Some? then Reference(text[0]).value else [text[0]]) + Escaped(text[1..])
  }

  ghost predicate StartsWithReference(text: string) {
    exists c :: Reference(c).Some? && Reference(c).value <= text
  }

  /** Step by step: a reference becomes its character, and any other character stays. */
  lemma DecodedStep(c: char, rest: string)
    ensures Reference(c).Some? ==> Decoded(Reference(c).value + rest) == [c] + Decoded(rest)
    ensures !StartsWithReference([c] + rest) ==> Decoded([c] + rest) == [c] + Decoded(rest)
  {
    hide Scanned, EntityAt;
    TableHasEntities();
    if Reference(c).Some? {
      var entity := Entity(Reference(c).value, c);
      var text := entity.from + rest;
      ReferencesAreEntities(entity);
      assert entity.from <= text && text[|entity.from|..] == rest;
      OnlyAtStart(text, entity);
      ScanTakes(ENTITIES, text, entity);
    }
    if !StartsWithReference([c] + rest) {
      forall entity | entity in ENTITIES ensures !(entity.from <= [c] + rest) {
        EntitiesAreReferences(entity);
      }
      assert ([c] + rest)[1..] == rest;
      ScanKeeps(ENTITIES, [c] + rest);
    }
  }

  lemma ReferencesAreEntities(entity: Entity)
    requires Reference(entity.to) == Some(entity.from)
    ensures entity in ENTITIES
  {
    assert ENTITIES[0].to == '\"' && ENTITIES[1].to == '\'' && ENTITIES[2].to == '<' && ENTITIES[3].to == '>';
    assert ENTITIES[4].to == '&';
  }

  lemma EntitiesAreReferences(entity: Entity)
    requires entity in ENTITIES
    ensures Reference(entity.to) == Some(entity.from)
  {
  }

  /** No entity is the beginning of another. */
  lemma OnlyAtStart(text: string, entity: Entity)
    requires entity in ENTITIES && entity.from <= text
    ensures EntityAt(ENTITIES, text) == Some(entity)
  {
    hide EntityAt;
    var found := EntityAt(ENTITIES, text);
    if found.Some? && found.value != entity {
      OnlyEntity(text, entity, found.value);
    }
  }

  lemma ScanTakes(table: Table, text: string, entity: Entity)
    requires AreEntities(table) && entity in table && EntityAt(table, text) == Some(entity)
    ensures Scanned(table, text) == [entity.to] + Scanned(table, text[|entity.from|..])
  {
    hide EntityAt;
    assert IsEntity(entity) && text != "";
  }

  lemma ScanKeeps(table: Table, text: string)
    requires AreEntities(table) && text != "" && forall entity | entity in table :: !(entity.from <= text)
    ensures Scanned(table, text) == [text[0]] + Scanned(table, text[1..])
  {
    hide EntityAt;
  }

  /** Decoding gives back every text from its escaped form. */
  lemma {:induction false} EscapedIsDecoded(text: string)
    ensures Decoded(Escaped(text)) == text
  {
    hide Decoded;
    if text == "" {
      NothingDecoded();
    } else {
      var c, rest := text[0], Escaped(text[1..]);
      EscapedIsDecoded(text[1..]);
      assert text == [c] + text[1..];
      if Reference(c).None? {
        assert !StartsWithReference([c] + rest) by {
          NoReference(c, rest);
        }
      }
      DecodedStep(c, rest);
    }
  }

  lemma NothingDecoded()
    ensures Decoded("") == ""
  {
  }

  lemma NoReference(c: char, rest: string)
    requires c != '&'
    ensures !StartsWithReference([c] + rest)
  {
    assert ([c] + rest)[0] == c;
    forall d | Reference(d).Some? ensures !(Reference(d).value <= [c] + rest) {
      assert Reference(d).value[0] == '&';
    }
  }
}
