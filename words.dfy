/**
 * The word list (Words.cs): a list of accepted words loaded once, from the
 * lines of a text file or from the "word" column of a database table, and
 * queried by exact membership.  The file and the table are given as
 * sequences; opening and reading them is outside the model.
 */
module WordLists {

  /** Where the words come from.  A C# enum can hold any integer, so values other than the two named ones exist. */
  datatype WordSource = TextFile | Database | Unlisted(code: int)

  /** One row of the `Words` table, reduced to its "word" column. */
  datatype Row = Row(word: string)

  /** The "word" values of the rows, in row order. */
  function WordColumn(rows: seq<Row>): (r: seq<string>)
    ensures |r| == |rows|
    ensures forall i :: 0 <= i < |rows| ==> r[i] == rows[i].word
  {
    seq(|rows|, i requires 0 <= i < |rows| => rows[i].word)
  }

  /** The words a freshly constructed list holds for the given source. */
  function Loaded(source: WordSource, lines: seq<string>, rows: seq<Row>): (r: seq<string>)
    ensures source == TextFile ==> r == lines
    ensures source == Database ==> |r| == |rows| && forall i :: 0 <= i < |rows| ==> r[i] == rows[i].word
    ensures source.Unlisted? ==> r == []
  {
    match source
    case TextFile => lines
    case Database => WordColumn(rows)
    case Unlisted(_) => []
  }

  /**
   * A word is accepted after loading exactly when the selected source
   * supplies it: a line of the file, or the "word" of some row.
   */
  lemma LoadedMembership(source: WordSource, lines: seq<string>, rows: seq<Row>, str: string)
    ensures str in Loaded(source, lines, rows) <==>
      (source == TextFile && str in lines) ||
      (source == Database && exists i :: 0 <= i < |rows| && rows[i].word == str)
  {
    if source == Database {
      var w := WordColumn(rows);
      if str in w {
        var i :| 0 <= i < |w| && w[i] == str;
        assert rows[i].word == str;
      }
    }
  }

  /** A source other than a text file or a database accepts no word at all. */
  lemma UnlistedAcceptsNothing(code: int, lines: seq<string>, rows: seq<Row>, str: string)
    ensures str !in Loaded(Unlisted(code), lines, rows)
  {
  }

  class Words {
    var words: seq<string>
    var sourceType: WordSource
    var fileName: string

    /**
     * `new Words(source, file)`: remember the source and the file name, start
     * from an empty list, and fill it from the file's lines for `TextFile`,
     * from the table's rows for `Database`, and not at all otherwise.
     */
    constructor (source: WordSource, file: string, lines: seq<string>, rows: seq<Row>)
      ensures sourceType == source && fileName == file
      ensures words == Loaded(source, lines, rows)
    {
      sourceType := source;
      fileName := file;
      words := [];
      new;
      if source == TextFile {
        GetWordsFromFile(lines);
      } else if source == Database {
        GetWordsFromDb(rows);
      }
    }

    /** `validate`: exact, case-sensitive membership in the list. */
    function Validate(str: string): (r: bool)
      reads this
      ensures r <==> exists i :: 0 <= i < |words| && words[i] == str
    {
      str in words
    }

    /** `getWordsFromFile`: discard the earlier words, then add each line in order. */
    method GetWordsFromFile(lines: seq<string>)
      modifies this`words
      ensures words == lines
    {
      words := [];
      var i := 0;
      while i < |lines|
        invariant 0 <= i <= |lines|
        invariant words == lines[..i]
      {
        words := words + [lines[i]];
        i := i + 1;
      }
      assert lines[..i] == lines;
    }

    /** `getWordsFromDb`: discard the earlier words, then add each row's "word" in row order. */
    method GetWordsFromDb(rows: seq<Row>)
      modifies this`words
      ensures words == WordColumn(rows)
    {
      words := [];
      var i := 0;
      while i < |rows|
        invariant 0 <= i <= |rows|
        invariant words == WordColumn(rows[..i])
      {
        words := words + [rows[i].word];
        i := i + 1;
      }
      assert rows[..i] == rows;
    }
  }
}
