/**
 * Movies: the validation rules for a movie's fields, and the movies table
 * with optimistic concurrency. Every row carries a version; an update names
 * the version it last saw and succeeds only when that is still the stored
 * one, after which the version goes up by one.
 */
module Movies {
  import opened Wrappers
  import opened Strconv
  import Strings
  import opened Validation

  /** `ErrRecordNotFound` ("record not found") and `ErrEditConflict` ("edit conflict"). */
  datatype DataError = RecordNotFound | EditConflict

  /** Longest title accepted, in bytes. */
  const MaxTitleBytes := 500
  /** Earliest year accepted. */
  const FirstFilmYear := 1888
  /** Most genres accepted. */
  const MaxGenres := 5

  /** `len(genres)`: a nil list (`None`) has no entries. */
  function GenreList(genres: Option<seq<string>>): seq<string>
  {
    match genres
    case None => []
    case Some(g) => g
  }

  /** The title checks of `ValidateMovie`, in order. */
  function TitleRules(title: string): seq<Rule>
  {
    [ Rule(title != "", "title", "must be provided"),
      Rule(Strings.Utf8Len(title) <= MaxTitleBytes, "title", "must not be more than 500 bytes long") ]
  }

  /** The year checks; `currentYear` stands for the clock's current year. */
  function YearRules(year: Int32, currentYear: Int32): seq<Rule>
  {
    [ Rule(year != 0, "year", "must be provided"),
      Rule(year >= FirstFilmYear, "year", "must be greater than 1888"),
      Rule(year <= currentYear, "year", "must not be in the future") ]
  }

  function RuntimeRules(runtime: Int32): seq<Rule>
  {
    [ Rule(runtime != 0, "runtime", "must be provided"),
      Rule(runtime > 0, "runtime", "must be a positive integer") ]
  }

  function GenreRules(genres: Option<seq<string>>): seq<Rule>
  {
    [ Rule(genres.Some?, "genres", "must be provided"),
      Rule(|GenreList(genres)| >= 1, "genres", "must contain at least 1 genre"),
      Rule(|GenreList(genres)| <= MaxGenres, "genres", "must not contain more than 5 genres"),
      Rule(NoDuplicates(GenreList(genres)), "genres", "must not contain duplicate values") ]
  }

  /** Every check `ValidateMovie` makes, in order. */
  function MovieRules(title: string, year: Int32, runtime: Int32, genres: Option<seq<string>>,
                      currentYear: Int32): seq<Rule>
  {
    TitleRules(title) + YearRules(year, currentYear) + RuntimeRules(runtime) + GenreRules(genres)
  }

  /** The message a fresh validator holds for "title" after validation, if any. */
  function TitleMessage(title: string): (m: Option<string>)
    ensures m.Some? <==> title == "" || Strings.Utf8Len(title) > MaxTitleBytes
  {
    if title == "" then Some("must be provided")
    else if Strings.Utf8Len(title) > MaxTitleBytes then Some("must not be more than 500 bytes long")
    else None
  }

  function YearMessage(year: Int32, currentYear: Int32): (m: Option<string>)
    ensures m.Some? <==> year == 0 || year < FirstFilmYear || year > currentYear
  {
    if year == 0 then Some("must be provided")
    else if year < FirstFilmYear then Some("must be greater than 1888")
    else if year > currentYear then Some("must not be in the future")
    else None
  }

  function RuntimeMessage(runtime: Int32): (m: Option<string>)
    ensures m.Some? <==> runtime <= 0
  {
    if runtime == 0 then Some("must be provided")
    else if runtime < 0 then Some("must be a positive integer")
    else None
  }

  function GenresMessage(genres: Option<seq<string>>): (m: Option<string>)
    ensures m.Some? <==>
      genres.None? || |GenreList(genres)| == 0 || |GenreList(genres)| > MaxGenres || !NoDuplicates(GenreList(genres))
  {
    if genres.None? then Some("must be provided")
    else if |genres.value| < 1 then Some("must contain at least 1 genre")
    else if |genres.value| > MaxGenres then Some("must not contain more than 5 genres")
    else if !NoDuplicates(genres.value) then Some("must not contain duplicate values")
    else None
  }

  lemma TitleFailure(title: string)
    ensures FirstFailure(TitleRules(title), "title") == TitleMessage(title)
  {
    var rules := TitleRules(title);
    assert rules[..1][..0] == [];
  }

  lemma YearFailure(year: Int32, currentYear: Int32)
    ensures FirstFailure(YearRules(year, currentYear), "year") == YearMessage(year, currentYear)
  {
    var rules := YearRules(year, currentYear);
    assert rules[..1][..0] == [];
    assert FirstFailure(rules[..1], "year") == if year == 0 then Some("must be provided") else None;
    assert rules[..2][..1] == rules[..1];
    assert FirstFailure(rules[..2], "year") == if year == 0 then Some("must be provided")
      else if year < FirstFilmYear then Some("must be greater than 1888") else None;
  }

  lemma RuntimeFailure(runtime: Int32)
    ensures FirstFailure(RuntimeRules(runtime), "runtime") == RuntimeMessage(runtime)
  {
    var rules := RuntimeRules(runtime);
    assert rules[..1][..0] == [];
  }

  lemma GenresFailure(genres: Option<seq<string>>)
    ensures FirstFailure(GenreRules(genres), "genres") == GenresMessage(genres)
  {
    var rules := GenreRules(genres);
    var n := |GenreList(genres)|;
    assert rules[..1][..0] == [];
    assert FirstFailure(rules[..1], "genres") == if genres.None? then Some("must be provided") else None;
    assert rules[..2][..1] == rules[..1];
    assert FirstFailure(rules[..2], "genres") == if genres.None? then Some("must be provided")
      else if n < 1 then Some("must contain at least 1 genre") else None;
    assert rules[..3][..2] == rules[..2];
    assert FirstFailure(rules[..3], "genres") == if genres.None? then Some("must be provided")
      else if n < 1 then Some("must contain at least 1 genre")
      else if n > MaxGenres then Some("must not contain more than 5 genres") else None;
  }

  lemma GroupKeys(title: string, year: Int32, runtime: Int32, genres: Option<seq<string>>, currentYear: Int32)
    ensures AllAbout(TitleRules(title), "title")
    ensures AllAbout(YearRules(year, currentYear), "year")
    ensures AllAbout(RuntimeRules(runtime), "runtime")
    ensures AllAbout(GenreRules(genres), "genres")
  {
    var y, g := YearRules(year, currentYear), GenreRules(genres);
    forall i | 0 <= i < 3 ensures y[i].key == "year" {
      assert i == 0 || i == 1 || i == 2;
    }
    forall i | 0 <= i < 4 ensures g[i].key == "genres" {
      assert i == 0 || i == 1 || i == 2 || i == 3;
    }
  }

  /**
   * For the key of one field, the first failure among all checks is the
   * first failure among that field's own checks; for any other key there
   * is none.
   */
  lemma MovieFailure(title: string, year: Int32, runtime: Int32, genres: Option<seq<string>>, currentYear: Int32,
                     key: string)
    ensures var f := FirstFailure(MovieRules(title, year, runtime, genres, currentYear), key);
      && (key == "title" ==> f == TitleMessage(title))
      && (key == "year" ==> f == YearMessage(year, currentYear))
      && (key == "runtime" ==> f == RuntimeMessage(runtime))
      && (key == "genres" ==> f == GenresMessage(genres))
      && (key != "title" && key != "year" && key != "runtime" && key != "genres" ==> f.None?)
  {
    var a, b, c, d := TitleRules(title), YearRules(year, currentYear), RuntimeRules(runtime), GenreRules(genres);
    GroupKeys(title, year, runtime, genres, currentYear);
    FirstFailureConcat(a, b, key);
    FirstFailureConcat(a + b, c, key);
    FirstFailureConcat(a + b + c, d, key);
    if key == "title" {
      TitleFailure(title);
    } else if key == "year" {
      YearFailure(year, currentYear);
    } else if key == "runtime" {
      RuntimeFailure(runtime);
    } else if key == "genres" {
      GenresFailure(genres);
    }
  }

  /**
   * What `ValidateMovie` records. Messages already present stay. A field
   * without a message gets the first failing check's message: "title" when
   * the title is empty or over 500 bytes; "year" when the year is 0, before
   * 1888 or after the current year; "runtime" when the runtime is not
   * positive; "genres" when the list is nil, empty, longer than 5 or has a
   * duplicate. No other key changes.
   */
  lemma MovieErrors(errors: map<string, string>, title: string, year: Int32, runtime: Int32,
                    genres: Option<seq<string>>, currentYear: Int32)
    ensures var r := Apply(errors, MovieRules(title, year, runtime, genres, currentYear));
      && (forall k :: k in errors ==> k in r && r[k] == errors[k])
      && ("title" !in errors ==> Lookup(r, "title") == TitleMessage(title))
      && ("year" !in errors ==> Lookup(r, "year") == YearMessage(year, currentYear))
      && ("runtime" !in errors ==> Lookup(r, "runtime") == RuntimeMessage(runtime))
      && ("genres" !in errors ==> Lookup(r, "genres") == GenresMessage(genres))
      && (forall k :: k != "title" && k != "year" && k != "runtime" && k != "genres" ==> (k in r <==> k in errors))
  {
    var rules := MovieRules(title, year, runtime, genres, currentYear);
    ApplyKeeps(errors, rules);
    forall k ensures k !in errors ==> Lookup(Apply(errors, rules), k) == FirstFailure(rules, k) {
      ApplyRules(errors, rules, k);
    }
    forall k ensures var f := FirstFailure(rules, k);
      && (k == "title" ==> f == TitleMessage(title))
      && (k == "year" ==> f == YearMessage(year, currentYear))
      && (k == "runtime" ==> f == RuntimeMessage(runtime))
      && (k == "genres" ==> f == GenresMessage(genres))
      && (k != "title" && k != "year" && k != "runtime" && k != "genres" ==> f.None?)
    {
      MovieFailure(title, year, runtime, genres, currentYear, k);
    }
  }

  /** A movie as the handlers hold it; the model's methods write into it. */
  class Movie {
    var id: int
    var createdAt: int
    var title: string
    var year: Int32
    var runtime: Int32
    var genres: Option<seq<string>>
    var version: int

    constructor (title: string, year: Int32, runtime: Int32, genres: Option<seq<string>>)
      ensures this.title == title && this.year == year && this.runtime == runtime && this.genres == genres
      ensures id == 0 && createdAt == 0 && version == 0
    {
      this.id := 0;
      this.createdAt := 0;
      this.title := title;
      this.year := year;
      this.runtime := runtime;
      this.genres := genres;
      this.version := 0;
    }
  }

  /** Lines 25-26 of `ValidateMovie`: the title checks. */
  method CheckTitle(v: Validator, title: string)
    modifies v
    ensures v.errors == Apply(old(v.errors), TitleRules(title))
  {
    ghost var e0 := v.errors;
    ghost var rules := TitleRules(title);
    v.Check(title != "", "title", "must be provided");
    assert v.errors == Apply(e0, rules[..1]);
    v.Check(Strings.Utf8Len(title) <= MaxTitleBytes, "title", "must not be more than 500 bytes long");
    assert rules[..2] == rules && rules[..1] == rules[..|rules| - 1];
  }

  /** Lines 28-30 of `ValidateMovie`: the year checks. */
  method CheckYear(v: Validator, year: Int32, currentYear: Int32)
    modifies v
    ensures v.errors == Apply(old(v.errors), YearRules(year, currentYear))
  {
    ghost var e0 := v.errors;
    ghost var rules := YearRules(year, currentYear);
    v.Check(year != 0, "year", "must be provided");
    assert v.errors == Apply(e0, rules[..1]);
    v.Check(year >= FirstFilmYear, "year", "must be greater than 1888");
    assert v.errors == Apply(e0, rules[..2]) by { assert rules[..2][..1] == rules[..1]; }
    v.Check(year <= currentYear, "year", "must not be in the future");
    assert rules[..3] == rules && rules[..2] == rules[..|rules| - 1];
  }

  /** Lines 32-33 of `ValidateMovie`: the runtime checks. */
  method CheckRuntime(v: Validator, runtime: Int32)
    modifies v
    ensures v.errors == Apply(old(v.errors), RuntimeRules(runtime))
  {
    ghost var e0 := v.errors;
    ghost var rules := RuntimeRules(runtime);
    v.Check(runtime != 0, "runtime", "must be provided");
    assert v.errors == Apply(e0, rules[..1]);
    v.Check(runtime > 0, "runtime", "must be a positive integer");
    assert rules[..2] == rules && rules[..1] == rules[..|rules| - 1];
  }

  /** Lines 35-38 of `ValidateMovie`: the genre checks, the last one through `Unique`. */
  method CheckGenres(v: Validator, genres: Option<seq<string>>)
    modifies v
    ensures v.errors == Apply(old(v.errors), GenreRules(genres))
  {
    ghost var e0 := v.errors;
    ghost var rules := GenreRules(genres);
    var list := GenreList(genres);
    v.Check(genres.Some?, "genres", "must be provided");
    assert v.errors == Apply(e0, rules[..1]);
    v.Check(|list| >= 1, "genres", "must contain at least 1 genre");
    assert v.errors == Apply(e0, rules[..2]) by { assert rules[..2][..1] == rules[..1]; }
    v.Check(|list| <= MaxGenres, "genres", "must not contain more than 5 genres");
    assert v.errors == Apply(e0, rules[..3]) by { assert rules[..3][..2] == rules[..2]; }
    var unique := Unique(list);
    v.Check(unique, "genres", "must not contain duplicate values");
    assert rules[..4] == rules && rules[..3] == rules[..|rules| - 1];
  }

  /**
   * `ValidateMovie`: the eleven checks in source order, with the current year
   * as a parameter.
   */
  method ValidateMovie(v: Validator, movie: Movie, currentYear: Int32)
    modifies v
    ensures v.errors == Apply(old(v.errors), MovieRules(movie.title, movie.year, movie.runtime, movie.genres, currentYear))
  {
    ghost var e0 := v.errors;
    ghost var a, b, c, d := TitleRules(movie.title), YearRules(movie.year, currentYear),
                            RuntimeRules(movie.runtime), GenreRules(movie.genres);
    CheckTitle(v, movie.title);
    CheckYear(v, movie.year, currentYear);
    ApplyConcat(e0, a, b);
    CheckRuntime(v, movie.runtime);
    ApplyConcat(e0, a + b, c);
    CheckGenres(v, movie.genres);
    ApplyConcat(e0, a + b + c, d);
  }

  /** A stored row of the movies table (the id is the key). */
  datatype MovieRow = MovieRow(createdAt: int, title: string, year: Int32, runtime: Int32,
                               genres: Option<seq<string>>, version: int)

  /**
   * The table after `UPDATE ... SET ..., version = version + 1 WHERE id = $5
   * AND version = $6`, or `None` when no row matches.
   */
  function CasUpdate(rows: map<int, MovieRow>, id: int, version: int, title: string, year: Int32,
                     runtime: Int32, genres: Option<seq<string>>): (r: Option<map<int, MovieRow>>)
    ensures r.Some? <==> id in rows && rows[id].version == version
    ensures r.Some? ==>
      && r.value.Keys == rows.Keys
      && r.value[id] == MovieRow(rows[id].createdAt, title, year, runtime, genres, version + 1)
      && forall k :: k in rows && k != id ==> r.value[k] == rows[k]
  {
    if id in rows && rows[id].version == version
    then Some(rows[id := rows[id].(title := title, year := year, runtime := runtime, genres := genres,
                                   version := rows[id].version + 1)])
    else None
  }

  /**
   * No lost update: once an update based on version `v` has gone through,
   * any other update based on the same `v` fails, whatever it writes.
   */
  lemma NoLostUpdate(rows: map<int, MovieRow>, id: int, v: int,
                     t1: string, y1: Int32, r1: Int32, g1: Option<seq<string>>,
                     t2: string, y2: Int32, r2: Int32, g2: Option<seq<string>>)
    requires CasUpdate(rows, id, v, t1, y1, r1, g1).Some?
    ensures CasUpdate(CasUpdate(rows, id, v, t1, y1, r1, g1).value, id, v, t2, y2, r2, g2).None?
  {
  }

  /** The movies table: rows keyed by id, and the next id the sequence hands out. */
  class MovieModel {
    var rows: map<int, MovieRow>
    var nextID: int

    /** Ids are positive and below the next one to be handed out. */
    predicate Valid()
      reads this
    {
      nextID >= 1 && forall id :: id in rows ==> 1 <= id < nextID
    }

    constructor ()
      ensures Valid() && rows == map[] && nextID == 1
    {
      rows := map[];
      nextID := 1;
    }

    /**
     * `Insert`: stores the movie's fields under a new id with creation time
     * `now` and version 1, and writes id, creation time and version back into
     * the movie.
     */
    method Insert(movie: Movie, now: int)
      requires Valid()
      modifies this, movie
      ensures Valid()
      ensures movie.id == old(nextID) && movie.id !in old(rows)
      ensures movie.createdAt == now && movie.version == 1
      ensures movie.title == old(movie.title) && movie.year == old(movie.year)
      ensures movie.runtime == old(movie.runtime) && movie.genres == old(movie.genres)
      ensures rows == old(rows)[movie.id := MovieRow(now, movie.title, movie.year, movie.runtime, movie.genres, 1)]
      ensures nextID == old(nextID) + 1
    {
      var id := nextID;
      rows := rows[id := MovieRow(now, movie.title, movie.year, movie.runtime, movie.genres, 1)];
      nextID := nextID + 1;
      movie.id, movie.createdAt, movie.version := id, now, 1;
    }

    /** `Get`: the stored movie, or `RecordNotFound` when no row has that id. */
    method Get(id: int) returns (r: Result<Movie, DataError>)
      ensures r.Err? <==> id !in rows
      ensures r.Err? ==> r.error == RecordNotFound
      ensures r.Ok? ==>
        && fresh(r.value) && id in rows
        && r.value.id == id
        && MovieRow(r.value.createdAt, r.value.title, r.value.year, r.value.runtime,
                    r.value.genres, r.value.version) == rows[id]
    {
      if id !in rows {
        return Err(RecordNotFound);
      }
      var row := rows[id];
      var movie := new Movie(row.title, row.year, row.runtime, row.genres);
      movie.id, movie.createdAt, movie.version := id, row.createdAt, row.version;
      return Ok(movie);
    }

    /**
     * `Update`: a compare-and-swap on the version. It succeeds exactly when
     * a row with the movie's id holds the movie's version; then the row takes
     * the new fields and version + 1, and the new version is written back into
     * the movie. Otherwise it reports `EditConflict` and nothing changes: a
     * missing row and a stale version look the same.
     */
    method Update(movie: Movie) returns (err: Option<DataError>)
      requires Valid()
      modifies this, movie
      ensures Valid() && nextID == old(nextID)
      ensures err.None? <==> CasUpdate(old(rows), movie.id, old(movie.version), movie.title, movie.year,
                                        movie.runtime, movie.genres).Some?
      ensures err.None? ==>
        && rows == CasUpdate(old(rows), movie.id, old(movie.version), movie.title, movie.year,
                             movie.runtime, movie.genres).value
        && movie.version == old(movie.version) + 1
      ensures err.Some? ==> err.value == EditConflict && rows == old(rows) && movie.version == old(movie.version)
      ensures movie.id == old(movie.id) && movie.title == old(movie.title) && movie.year == old(movie.year)
      ensures movie.runtime == old(movie.runtime) && movie.genres == old(movie.genres)
      ensures movie.createdAt == old(movie.createdAt)
    {
      var updated := CasUpdate(rows, movie.id, movie.version, movie.title, movie.year, movie.runtime, movie.genres);
      if updated.None? {
        return Some(EditConflict);
      }
      rows := updated.value;
      movie.version := rows[movie.id].version;
      return None;
    }

    /**
     * `Delete`: `RecordNotFound` without touching the table for an id below
     * 1 or one no row has; otherwise removes exactly that row.
     */
    method Delete(id: int) returns (err: Option<DataError>)
      requires Valid()
      modifies this
      ensures Valid() && nextID == old(nextID)
      ensures id < 1 || id !in old(rows) ==> err == Some(RecordNotFound) && rows == old(rows)
      ensures id >= 1 && id in old(rows) ==> err.None? && rows == old(rows) - {id}
    {
      if id < 1 {
        return Some(RecordNotFound);
      }
      if id !in rows {
        return Some(RecordNotFound);
      }
      rows := rows - {id};
      return None;
    }
  }
}
