/**
 * The fixed schema of the data-entry database: eleven tables, each with its
 * ordered list of column names. Auto-incremented `Id` columns are not listed,
 * and no column carries a type or a foreign key.
 */
module Schema {
  import opened Wrappers
  import opened Dicts

  const TABLENAME_ACTION := "Action"
  const TABLENAME_ARC := "Arc"
  const TABLENAME_CHAPTER := "Chapter"
  const TABLENAME_CHARACTER := "Character"
  const TABLENAME_EVENT := "Event"
  const TABLENAME_ITEM := "Item"
  const TABLENAME_OPINION := "Opinion"
  const TABLENAME_SERIES := "Series"
  const TABLENAME_TOPIC := "Topic"
  const TABLENAME_VOLUME := "Volume"
  const TABLENAME_VOLUMECOVERCHARACTER := "VolumeCoverCharacter"

  /** The eleven table-name constants, in declaration order. */
  const TABLENAMES: seq<string> := [
    TABLENAME_ACTION, TABLENAME_ARC, TABLENAME_CHAPTER, TABLENAME_CHARACTER,
    TABLENAME_EVENT, TABLENAME_ITEM, TABLENAME_OPINION, TABLENAME_SERIES,
    TABLENAME_TOPIC, TABLENAME_VOLUME, TABLENAME_VOLUMECOVERCHARACTER
  ]

  /** The dictionary literal, entry by entry in its written order. */
  const SCHEMA: seq<(string, seq<string>)> := [
    ("Action", ["By", "OnCharacter", "OnItem", "Description", "InPage", "InChapter"]),
    ("Arc", ["Name"]),
    ("Chapter", ["Number", "Title", "PageCount", "VolumeNo", "ArcId"]),
    ("Character", ["Name", "Gender", "Occupation", "Age"]),
    ("Event", ["OnCharacter", "OnItem", "Description", "InPage", "InChapter"]),
    ("Item", ["Name", "Description"]),
    ("Opinion", ["By", "OnCharacter", "OnTopic", "OnItem", "Description", "InPage", "InChapter"]),
    ("Series", ["Name"]),
    ("Topic", ["Name", "Description"]),
    ("Volume", ["Number", "SeriesName"]),
    ("VolumeCoverCharacter", ["VolumeNo", "CharacterName"])
  ]

  /** `t in SCHEMA`. */
  predicate IsTable(t: string)
  {
    t in Keys(SCHEMA)
  }

  /** `t in SCHEMA and c in SCHEMA[t]`. */
  predicate IsColumn(t: string, c: string)
  {
    match Get(SCHEMA, t)
    case Some(columns) => c in columns
    case None => false
  }

  /** A character allowed in an SQL identifier without quoting. */
  predicate IsNameChar(ch: char)
  {
    ('A' <= ch <= 'Z') || ('a' <= ch <= 'z') || ('0' <= ch <= '9') || ch == '_'
  }

  /** A name made of identifier characters only: no space, comma, parenthesis, `=` or `?`. */
  predicate PlainName(s: string)
  {
    forall i :: 0 <= i < |s| ==> IsNameChar(s[i])
  }

  /** The keys of SCHEMA are exactly the eleven table-name constants, in the same order, each once. */
  lemma SchemaKeys()
    ensures Keys(SCHEMA) == TABLENAMES
    ensures |TABLENAMES| == 11
    ensures DistinctKeys(SCHEMA)
  {
    // Not needed for validity, but it keeps the solver's work on the literal well within bounds.
    forall i | 0 <= i < |SCHEMA| ensures Keys(SCHEMA)[i] == TABLENAMES[i] {
    }
  }

  /** Column names are pairwise distinct within each table. */
  lemma SchemaColumnsDistinct()
    ensures forall k, i, j :: 0 <= k < |SCHEMA| && 0 <= i < j < |SCHEMA[k].1| ==> SCHEMA[k].1[i] != SCHEMA[k].1[j]
  {
  }

  /** Every table has at least one column and none lists the auto-incremented `Id`. */
  lemma SchemaTablesWellFormed()
    ensures forall k :: 0 <= k < |SCHEMA| ==> |SCHEMA[k].1| >= 1
    ensures forall k :: 0 <= k < |SCHEMA| ==> "Id" !in SCHEMA[k].1
  {
  }

  /** Every table name of SCHEMA is a plain identifier. */
  lemma SchemaTableNamesPlain()
    ensures forall k :: 0 <= k < |SCHEMA| ==> PlainName(SCHEMA[k].0)
  {
  }

  /** Every column name of SCHEMA is a plain identifier. */
  lemma SchemaColumnNamesPlain()
    ensures forall k :: 0 <= k < |SCHEMA| ==> AllPlain(SCHEMA[k].1)
  {
    ActionColumnsPlain();
    ArcColumnsPlain();
    ChapterColumnsPlain();
    CharacterColumnsPlain();
    EventColumnsPlain();
    ItemColumnsPlain();
    OpinionColumnsPlain();
    SeriesColumnsPlain();
    TopicColumnsPlain();
    VolumeColumnsPlain();
    VolumeCoverCharacterColumnsPlain();
  }

  // The column check, one table at a time so that each proof stays small.
  lemma ActionColumnsPlain()
    ensures AllPlain(SCHEMA[0].1)
  {
  }

  lemma ArcColumnsPlain()
    ensures AllPlain(SCHEMA[1].1)
  {
  }

  lemma ChapterColumnsPlain()
    ensures AllPlain(SCHEMA[2].1)
  {
  }

  lemma CharacterColumnsPlain()
    ensures AllPlain(SCHEMA[3].1)
  {
  }

  lemma EventColumnsPlain()
    ensures AllPlain(SCHEMA[4].1)
  {
  }

  lemma ItemColumnsPlain()
    ensures AllPlain(SCHEMA[5].1)
  {
  }

  lemma OpinionColumnsPlain()
    ensures AllPlain(SCHEMA[6].1)
  {
  }

  lemma SeriesColumnsPlain()
    ensures AllPlain(SCHEMA[7].1)
  {
  }

  lemma TopicColumnsPlain()
    ensures AllPlain(SCHEMA[8].1)
  {
  }

  lemma VolumeColumnsPlain()
    ensures AllPlain(SCHEMA[9].1)
  {
  }

  lemma VolumeCoverCharacterColumnsPlain()
    ensures AllPlain(SCHEMA[10].1)
  {
  }

  /** Every name of the list is a plain identifier. */
  predicate AllPlain(names: seq<string>)
  {
    forall k :: 0 <= k < |names| ==> PlainName(names[k])
  }

  /** `ensure_tablename`'s test agrees with the list of table-name constants. */
  lemma IsTableIffTablename(t: string)
    ensures IsTable(t) <==> t in TABLENAMES
  {
    SchemaKeys();
  }

  /** A name that passes the column test is a column of a table of SCHEMA, and both are plain identifiers. */
  lemma {:induction false} ColumnsArePlain(t: string, c: string)
    requires IsColumn(t, c)
    ensures IsTable(t) && PlainName(t) && PlainName(c)
  {
    var columns := Get(SCHEMA, t).value;
    var k :| 0 <= k < |SCHEMA| && SCHEMA[k] == (t, columns);
    SchemaTableNamesPlain();
    SchemaColumnNamesPlain();
    assert AllPlain(SCHEMA[k].1);
  }

  /** A name that passes the table test is a plain identifier. */
  lemma TableIsPlain(t: string)
    requires IsTable(t)
    ensures PlainName(t)
  {
    SchemaTableNamesPlain();
    var k :| 0 <= k < |SCHEMA| && SCHEMA[k].0 == t;
  }

  /** The column test agrees with the entries of SCHEMA, whatever entry the lookup reaches first. */
  lemma IsColumnIffListed(t: string, c: string)
    ensures IsColumn(t, c) <==> exists k :: 0 <= k < |SCHEMA| && SCHEMA[k].0 == t && c in SCHEMA[k].1
  {
    if k :| 0 <= k < |SCHEMA| && SCHEMA[k].0 == t && c in SCHEMA[k].1 {
      SchemaKeys();
      GetEntry(SCHEMA, k);
    }
  }
}
