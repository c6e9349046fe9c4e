/**
 The quiz's fixed table: seven kanji, each with the meaning the player must
 guess and a short historical origin shown after every answer.
 */
module KanjiData {

  /** One table value: the accepted meaning and the origin text. */
  datatype Entry = Entry(meaning: string, origin: string)

  const Sun := Entry("sun/day",
    "Derived from a pictograph of the sun (○ with a dot). "
    + "Ancient Chinese drew it as a circle representing the sun.")
  const Moon := Entry("moon/month",
    "Originally a crescent moon shape (🌙). "
    + "Over time, it became more angular.")
  const Mountain := Entry("mountain",
    "A stylized drawing of three mountain peaks (𓆗 → 山).")
  const River := Entry("river",
    "Represents flowing water (𓈖 → 川). "
    + "The lines symbolize river currents.")
  const Tree := Entry("tree/wood",
    "Depicts a tree with roots (𓇯) and branches (木).")
  const Fire := Entry("fire",
    "Resembles flames rising (灬 is the 'fire' radical).")
  const Person := Entry("person",
    "Simplified from a stick figure of a person (𓀀 → 人).")

  /** The table as it stands once the static initializer has run. */
  function KanjiTable(): (table: map<string, Entry>)
    ensures WellFormedTable(table)
  {
    map["日" := Sun, "月" := Moon, "山" := Mountain, "川" := River,
        "木" := Tree, "火" := Fire, "人" := Person]
  }

  /** Every entry has a non-empty meaning and a non-empty origin. */
  predicate WellFormedTable(data: map<string, Entry>) {
    forall k :: k in data ==> data[k].meaning != [] && data[k].origin != []
  }

  /** The static initializer: an empty map filled by one `put` per kanji. */
  method InitKanjiData() returns (kanjiData: map<string, Entry>)
    ensures kanjiData == KanjiTable()
    ensures |kanjiData| == 7 && WellFormedTable(kanjiData)
  {
    kanjiData := map[];
    kanjiData := kanjiData["日" := Sun];
    kanjiData := kanjiData["月" := Moon];
    kanjiData := kanjiData["山" := Mountain];
    kanjiData := kanjiData["川" := River];
    kanjiData := kanjiData["木" := Tree];
    kanjiData := kanjiData["火" := Fire];
    kanjiData := kanjiData["人" := Person];
    KanjiTableShape();
  }

  /** The table holds exactly seven distinct kanji. */
  lemma KanjiTableShape()
    ensures KanjiTable().Keys == {"日", "月", "山", "川", "木", "火", "人"}
    ensures |KanjiTable()| == 7
  {
  }
}
