/**
 * Dataset ingestion: every `.csv` file of the data directory is named
 * `date_brand_model_source_destination_condition[_condition2].csv`; the loader
 * reads each such file and tags all of its rows with the metadata parsed
 * from its name, translating the German condition through a fixed table.
 *
 * Reading a CSV file is outside the model: `readCsv` gives a file's rows.
 */
module IngestData {
  import opened Prelude
  import Tools

  /** German condition tokens of the file names, and their English labels. */
  const TranslationMap: map<string, string> :=
    map[
      "Stau" := "Traffic",
      "2 Normal" := "Normal",
      "Normal" := "Normal",
      "Stau Messfehler" := "Traffic Jam Measurement error",
      "Frei" := "Free",
      "Frei Vollbremsung" := "Emergency Braking",
      "Normal Glatteis" := "Normal Icy Road",
      "Frei Beschleunigung" := "Free Accelaration"
    ]

  /** The columns the loader adds to every row of a file. */
  datatype Metadata = Metadata(date: string, brand: string, model: string,
                               source: string, destination: string, condition: string)

  /** What parsing a file name can raise. */
  datatype ParseError =
    | MissingKey(index: nat)          // IndexError: `keys[index]` with fewer than five keys
    | UnknownCondition(token: string) // KeyError: the token is not in the translation map
    | WrongKeyCount(count: nat)       // the explicit `raise` for five or more than seven keys

  /** `file.split(".")[0].split("_")`. */
  function FileKeys(file: string): (keys: seq<string>)
    ensures |keys| >= 1
  {
    Split(Split(file, ".")[0], "_")
  }

  /** The keys are the name up to its first dot, cut at every underscore. */
  lemma FileKeysPieces(file: string)
    ensures forall k :: k in FileKeys(file) ==> !Occurs(k, "_")
    ensures Join(FileKeys(file), "_") == Split(file, ".")[0]
  {
    var stem := Split(file, ".")[0];
    SplitPiecesAvoidSeparator(stem, "_");
    JoinSplit(stem, "_");
  }

  /** The condition token: the sixth key, or the sixth and seventh joined by a space. */
  function ConditionToken(keys: seq<string>): string
    requires |keys| == 6 || |keys| == 7
  {
    if |keys| == 6 then keys[5] else Join([keys[5], keys[6]], " ")
  }

  /** The metadata `load_dataset` extracts from one file name. */
  function ParseFileName(file: string): (r: Result<Metadata, ParseError>)
    ensures var keys := FileKeys(file);
      r.Ok? <==> (|keys| == 6 || |keys| == 7) && ConditionToken(keys) in TranslationMap
    ensures var keys := FileKeys(file);
      r.Ok? ==> r.value == Metadata(keys[0], keys[1], keys[2], keys[3], keys[4], TranslationMap[ConditionToken(keys)])
    ensures var keys := FileKeys(file);
      |keys| < 5 ==> r == Err(MissingKey(|keys|))
    ensures var keys := FileKeys(file);
      (|keys| == 5 || |keys| > 7) ==> r == Err(WrongKeyCount(|keys|))
    ensures var keys := FileKeys(file);
      (|keys| == 6 || |keys| == 7) && ConditionToken(keys) !in TranslationMap ==> r == Err(UnknownCondition(ConditionToken(keys)))
  {
    var keys := FileKeys(file);
    if |keys| < 5 then Err(MissingKey(|keys|))
    else if |keys| == 6 || |keys| == 7 then
      var token := if |keys| == 6 then keys[5] else Join([keys[5], keys[6]], " ");
      if token in TranslationMap then
        Ok(Metadata(keys[0], keys[1], keys[2], keys[3], keys[4], TranslationMap[token]))
      else Err(UnknownCondition(token))
    else Err(WrongKeyCount(|keys|))
  }

  /** Every translated label is one of the tool layer's conditions. */
  lemma TranslationsAreConditions()
    ensures forall token :: token in TranslationMap ==> TranslationMap[token] in Tools.Conditions
  {
  }

  /** Hence every parsed condition can be encoded by `transform_condition`. */
  lemma ParsedConditionEncodable(file: string)
    requires ParseFileName(file).Ok?
    ensures Tools.TransformCondition(ParseFileName(file).value.condition).Ok?
  {
    TranslationsAreConditions();
  }

  /** The seven-key spelling `2_Normal` is the label Normal. */
  lemma TwoNormalIsNormal(keys: seq<string>)
    requires |keys| == 7 && keys[5] == "2" && keys[6] == "Normal"
    ensures ConditionToken(keys) == "2 Normal" && TranslationMap[ConditionToken(keys)] == "Normal"
  {
    assert [keys[5], keys[6]][1..] == [keys[6]];
    assert Join([keys[5], keys[6]], " ") == "2" + " " + "Normal";
    assert "2" + " " + "Normal" == "2 Normal";
    assert "2 Normal" in TranslationMap;
    assert TranslationMap["2 Normal"] == "Normal";
  }

  /** A row of some file's table, tagged with that file's metadata. */
  datatype Record<R> = Record(row: R, meta: Metadata)

  /** Setting the six metadata columns on every row of one file's table. */
  function Tag<R>(rows: seq<R>, meta: Metadata): (t: seq<Record<R>>)
    ensures |t| == |rows|
    ensures forall i :: 0 <= i < |t| ==> t[i] == Record(rows[i], meta)
  {
    seq(|rows|, i requires 0 <= i < |rows| => Record(rows[i], meta))
  }

  /** One pass of the loop: skip a name that is not a `.csv`, else parse it and append its rows. */
  function LoadStep<R>(before: Result<Option<seq<Record<R>>>, ParseError>, file: string, readCsv: string -> seq<R>)
    : Result<Option<seq<Record<R>>>, ParseError>
  {
    if before.Err? || !EndsWith(file, ".csv") then before
    else match ParseFileName(file)
      case Err(e) => Err(e)
      case Ok(meta) =>
        match before.value
        case None => Ok(Some(Tag(readCsv(file), meta)))
        case Some(df) => Ok(Some(df + Tag(readCsv(file), meta)))
  }

  /**
   * The loader's state after the files so far: an exception, no frame yet
   * (`None`), or the concatenated frame. The newest file is at the end.
   */
  function Loaded<R>(files: seq<string>, readCsv: string -> seq<R>): Result<Option<seq<Record<R>>>, ParseError>
    decreases |files|
  {
    if |files| == 0 then Ok(None)
    else LoadStep(Loaded(files[..|files| - 1], readCsv), files[|files| - 1], readCsv)
  }

  /** `load_dataset`: the loop over the directory listing. */
  method LoadDataset<R>(files: seq<string>, readCsv: string -> seq<R>) returns (df: Result<Option<seq<Record<R>>>, ParseError>)
    ensures df == Loaded(files, readCsv)
  {
    var acc: Option<seq<Record<R>>> := None;
    for i := 0 to |files|
      invariant Loaded(files[..i], readCsv) == Ok(acc)
    {
      assert files[..i + 1][..i] == files[..i];
      var file := files[i];
      if EndsWith(file, ".csv") {
        var meta := ParseFileName(file);
        if meta.Err? {
          assert Loaded(files[..i + 1], readCsv) == Err(meta.error);
          LoadedKeepsError(files, i + 1, readCsv);
          return Err(meta.error);
        }
        if acc.Some? {
          acc := Some(acc.value + Tag(readCsv(file), meta.value));
        } else {
          acc := Some(Tag(readCsv(file), meta.value));
        }
      }
    }
    assert files[..|files|] == files;
    df := Ok(acc);
  }

  /** Once a file name fails to parse, the later files change nothing. */
  lemma {:induction false} LoadedKeepsError<R>(files: seq<string>, k: nat, readCsv: string -> seq<R>)
    requires k <= |files| && Loaded(files[..k], readCsv).Err?
    ensures Loaded(files, readCsv) == Loaded(files[..k], readCsv)
    decreases |files| - k
  {
    if k < |files| {
      assert files[..k + 1][..k] == files[..k];
      LoadedKeepsError(files, k + 1, readCsv);
    } else {
      assert files[..k] == files;
    }
  }

  /** The file names that are parsed: those ending in ".csv", in listing order. */
  function CsvFiles(files: seq<string>): (c: seq<string>)
    ensures forall f :: f in c <==> f in files && EndsWith(f, ".csv")
  {
    if |files| == 0 then []
    else (if EndsWith(files[0], ".csv") then [files[0]] else []) + CsvFiles(files[1..])
  }

  /** Every `.csv` name parses. */
  ghost predicate AllParse(files: seq<string>)
  {
    forall f :: f in files && EndsWith(f, ".csv") ==> ParseFileName(f).Ok?
  }

  /** The rows one listed name contributes: its tagged rows if it is a `.csv` whose name parses. */
  function FileRecords<R>(file: string, readCsv: string -> seq<R>): seq<Record<R>>
  {
    if !EndsWith(file, ".csv") then []
    else match ParseFileName(file)
      case Ok(meta) => Tag(readCsv(file), meta)
      case Err(_) => []
  }

  /** The concatenation of what `f` gives for each name, in order. */
  function ConcatMap<T>(names: seq<string>, f: string -> seq<T>): seq<T>
  {
    if |names| == 0 then [] else f(names[0]) + ConcatMap(names[1..], f)
  }

  lemma {:induction false} ConcatMapSnoc<T>(names: seq<string>, name: string, f: string -> seq<T>)
    ensures ConcatMap(names + [name], f) == ConcatMap(names, f) + f(name)
    decreases |names|
  {
    var longer := names + [name];
    if |names| == 0 {
      assert longer[1..] == [];
    } else {
      assert longer[0] == names[0] && longer[1..] == names[1..] + [name];
      ConcatMapSnoc(names[1..], name, f);
    }
  }

  /** Reference reading of a successful load: each `.csv` file's rows, tagged, in listing order. */
  function AllTagged<R>(files: seq<string>, readCsv: string -> seq<R>): seq<Record<R>>
  {
    ConcatMap(files, f => FileRecords(f, readCsv))
  }

  /** Appending one name to the listing appends that file's records. */
  lemma AllTaggedSnoc<R>(files: seq<string>, file: string, readCsv: string -> seq<R>)
    ensures AllTagged(files + [file], readCsv) == AllTagged(files, readCsv) + FileRecords(file, readCsv)
  {
    ConcatMapSnoc(files, file, f => FileRecords(f, readCsv));
  }

  /**
   * A load succeeds exactly when every `.csv` name parses; it yields no frame
   * exactly when there is no `.csv` name; otherwise the frame is every `.csv`
   * file's rows tagged with that file's own metadata, in listing order. The
   * first file and the later files are tagged alike.
   */
  lemma {:induction false} LoadedIsAllTagged<R>(files: seq<string>, readCsv: string -> seq<R>)
    ensures Loaded(files, readCsv).Ok? <==> AllParse(files)
    ensures AllParse(files) ==>
      Loaded(files, readCsv) == (if CsvFiles(files) == [] then Ok(None) else Ok(Some(AllTagged(files, readCsv))))
    decreases |files|
  {
    if |files| > 0 {
      var pre, file := files[..|files| - 1], files[|files| - 1];
      LoadedIsAllTagged(pre, readCsv);
      assert files == pre + [file];
      assert forall f :: f in files <==> f in pre || f == file;
      if AllParse(files) {
        LoadedStep(files, readCsv);
      }
    }
  }

  /** The inductive step of `LoadedIsAllTagged` for a listing whose names all parse. */
  lemma LoadedStep<R>(files: seq<string>, readCsv: string -> seq<R>)
    requires |files| > 0 && AllParse(files)
    requires var pre := files[..|files| - 1];
      Loaded(pre, readCsv) == (if CsvFiles(pre) == [] then Ok(None) else Ok(Some(AllTagged(pre, readCsv))))
    ensures Loaded(files, readCsv) == (if CsvFiles(files) == [] then Ok(None) else Ok(Some(AllTagged(files, readCsv))))
  {
    var pre, file := files[..|files| - 1], files[|files| - 1];
    assert files == pre + [file];
    CsvFilesSnoc(pre, file);
    AllTaggedSnoc(pre, file, readCsv);
    if CsvFiles(pre) == [] {
      NoCsvNoRecords(pre, readCsv);
    }
    if !EndsWith(file, ".csv") {
      assert AllTagged(pre, readCsv) + [] == AllTagged(pre, readCsv);
    } else {
      assert file in files;
      var tagged := Tag(readCsv(file), ParseFileName(file).value);
      assert FileRecords(file, readCsv) == tagged;
      assert CsvFiles(files) != [];
      if CsvFiles(pre) == [] {
        assert AllTagged(files, readCsv) == [] + tagged == tagged;
        assert Loaded(files, readCsv) == Ok(Some(tagged));
      } else {
        assert Loaded(files, readCsv) == Ok(Some(AllTagged(pre, readCsv) + tagged));
      }
    }
  }

  /** A listing without `.csv` names tags no records. */
  lemma {:induction false} NoCsvNoRecords<R>(files: seq<string>, readCsv: string -> seq<R>)
    requires CsvFiles(files) == []
    ensures AllTagged(files, readCsv) == []
    decreases |files|
  {
    if |files| > 0 {
      assert !EndsWith(files[0], ".csv");
      assert CsvFiles(files[1..]) == [];
      NoCsvNoRecords(files[1..], readCsv);
    }
  }

  /** `CsvFiles` of a longer listing. */
  lemma {:induction false} CsvFilesSnoc(files: seq<string>, file: string)
    ensures CsvFiles(files + [file]) == CsvFiles(files) + (if EndsWith(file, ".csv") then [file] else [])
    decreases |files|
  {
    var longer := files + [file];
    var last := if EndsWith(file, ".csv") then [file] else [];
    if |files| == 0 {
      assert longer[1..] == [];
      assert CsvFiles(longer) == last + CsvFiles([]);
    } else {
      var head := if EndsWith(files[0], ".csv") then [files[0]] else [];
      assert longer[0] == files[0] && longer[1..] == files[1..] + [file];
      CsvFilesSnoc(files[1..], file);
      assert CsvFiles(longer) == head + (CsvFiles(files[1..]) + last);
      assert CsvFiles(files) == head + CsvFiles(files[1..]);
    }
  }

  /** Non-`.csv` names are skipped: removing them does not change the load. */
  lemma {:induction false} OnlyCsvMatters<R>(xs: seq<string>, other: string, ys: seq<string>, readCsv: string -> seq<R>)
    requires !EndsWith(other, ".csv")
    ensures Loaded(xs + [other] + ys, readCsv) == Loaded(xs + ys, readCsv)
    decreases |ys|
  {
    if |ys| == 0 {
      assert xs + [other] + ys == xs + [other] && (xs + [other])[..|xs|] == xs;
      assert xs + ys == xs;
    } else {
      var init := ys[..|ys| - 1];
      OnlyCsvMatters(xs, other, init, readCsv);
      var longer, shorter := xs + [other] + ys, xs + ys;
      assert longer[..|longer| - 1] == xs + [other] + init && longer[|longer| - 1] == ys[|ys| - 1];
      assert shorter[..|shorter| - 1] == xs + init && shorter[|shorter| - 1] == ys[|ys| - 1];
      LoadedSameLast(longer, shorter, readCsv);
    }
  }

  /** Two listings that agree before their last name and on it load alike. */
  lemma {:induction false} LoadedSameLast<R>(xs: seq<string>, ys: seq<string>, readCsv: string -> seq<R>)
    requires |xs| > 0 && |ys| > 0 && xs[|xs| - 1] == ys[|ys| - 1]
    requires Loaded(xs[..|xs| - 1], readCsv) == Loaded(ys[..|ys| - 1], readCsv)
    ensures Loaded(xs, readCsv) == Loaded(ys, readCsv)
  {
    var before, file := Loaded(ys[..|ys| - 1], readCsv), ys[|ys| - 1];
    assert Loaded(xs, readCsv) == LoadStep(before, file, readCsv);
    assert Loaded(ys, readCsv) == LoadStep(before, file, readCsv);
  }

  /** Every record of a successful load comes from some `.csv` file and carries that file's metadata. */
  lemma RecordsCarryTheirFileMetadata<R>(files: seq<string>, readCsv: string -> seq<R>, rec: Record<R>)
    requires Loaded(files, readCsv).Ok? && Loaded(files, readCsv).value.Some?
    requires rec in Loaded(files, readCsv).value.value
    ensures exists f :: f in files && EndsWith(f, ".csv") && ParseFileName(f) == Ok(rec.meta) && rec.row in readCsv(f)
  {
    LoadedIsAllTagged(files, readCsv);
    AllTaggedMembers(files, readCsv, rec);
  }

  lemma {:induction false} AllTaggedMembers<R>(files: seq<string>, readCsv: string -> seq<R>, rec: Record<R>)
    requires rec in AllTagged(files, readCsv)
    ensures exists f :: f in files && EndsWith(f, ".csv") && ParseFileName(f) == Ok(rec.meta) && rec.row in readCsv(f)
    decreases |files|
  {
    var head := FileRecords(files[0], readCsv);
    assert forall f :: f in files[1..] ==> f in files;
    if rec in head {
      var i :| 0 <= i < |head| && head[i] == rec;
      assert files[0] in files;
    } else {
      AllTaggedMembers(files[1..], readCsv, rec);
    }
  }
}
