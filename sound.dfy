/** playSound's note tables: which note a pad value or a key sounds. */
module Sound {
  import opened Wrappers

  /** How the input reached playSound: a click on a pad, or a key press. */
  datatype Trigger = Click | Key

  /** The table playSound consults for each kind of input. */
  function Table(via: Trigger): map<string, string> {
    match via
    case Click => map["red" := "c4", "yellow" := "d4", "green" := "e4", "blue" := "f4"]
    case Key => map["q" := "c4", "w" := "d4", "a" := "e4", "s" := "f4"]
  }

  /** The note handed to the synthesiser, or None when the table has no entry
      (the source then passes `undefined` to the synthesiser). */
  function Note(btnValue: string, via: Trigger): (n: Option<string>)
    ensures n.Some? <==> btnValue in Table(via)
    ensures n.Some? ==> n.value in {"c4", "d4", "e4", "f4"}
  {
    if btnValue in Table(via) then Some(Table(via)[btnValue]) else None
  }

  /** Both tables cover the same four notes, each exactly once. */
  lemma TablesCoverSameNotes(via: Trigger, v: string, w: string)
    requires v in Table(via) && w in Table(via) && v != w
    ensures Table(via)[v] != Table(via)[w]
    ensures Table(Click).Values == Table(Key).Values == {"c4", "d4", "e4", "f4"}
  {
    assert Table(Click).Values == {"c4", "d4", "e4", "f4"} by {
      assert Table(Click)["red"] == "c4" && Table(Click)["yellow"] == "d4";
      assert Table(Click)["green"] == "e4" && Table(Click)["blue"] == "f4";
    }
    assert Table(Key).Values == {"c4", "d4", "e4", "f4"} by {
      assert Table(Key)["q"] == "c4" && Table(Key)["w"] == "d4";
      assert Table(Key)["a"] == "e4" && Table(Key)["s"] == "f4";
    }
  }
}
