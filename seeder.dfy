/**
 * The `Seeder` library object: its connection and folder settings, the
 * validation of `seed`, and the seeder file `seed` writes. The database is
 * replaced by its answers (does the table exist, which rows does it hold),
 * the folder listing by the names `glob` returns, and the filesystem by a
 * map from full path to file content.
 */
module SeederLib {
  import opened Options
  import opened StringHelpers
  import opened Ordinal
  import opened Render

  /** The platform constants the library reads: `DIRECTORY_SEPARATOR` and `PHP_EOL`. */
  datatype Platform = Unix | Windows {
    function Sep(): char
    {
      if Unix? then '/' else '\\'
    }

    function Eol(): string
    {
      if Unix? then "\n" else "\r\n"
    }
  }

  /** The `{status, message}` object `seed` returns. */
  datatype Response = Response(status: bool, message: string)

  /** PHP's `!$name` on the table-name argument: null, the empty string and `"0"` are all false. */
  predicate Falsy(name: Option<string>)
  {
    name.None? || name.value == "" || name.value == "0"
  }

  /** The message for a missing table name. */
  const ParameterNotFound := "PARAMETER NOT FOUND."

  /** A table name in double quotes, as the messages show it. */
  function Quoted(table: string): string
  {
    "\"" + table + "\""
  }

  /** The message for a table the database does not have: `TABLE "<name>" NOT FOUND IN YOUR DATABASE.` */
  function TableNotFound(table: string): (m: string)
    ensures OccursAt(m, Quoted(table), 6)
  {
    OccursBetween("TABLE ", Quoted(table), " NOT FOUND IN YOUR DATABASE.");
    "TABLE " + Quoted(table) + " NOT FOUND IN YOUR DATABASE."
  }

  /** The message for a table without rows: `NO RECORDS IN TABLE "<name>".` */
  function NoRecords(table: string): (m: string)
    ensures OccursAt(m, Quoted(table), 20)
  {
    OccursBetween("NO RECORDS IN TABLE ", Quoted(table), ".");
    "NO RECORDS IN TABLE " + Quoted(table) + "."
  }

  /**
   * The three checks `seed` makes before rendering, in order; the first
   * that fails decides the response, and all three fail with status false.
   */
  function Validate(name: Option<string>, tableExists: bool, rowCount: nat): (r: Option<Response>)
    ensures r == None <==> !Falsy(name) && tableExists && rowCount > 0
    ensures r.Some? ==> !r.value.status
    ensures Falsy(name) ==> r == Some(Response(false, ParameterNotFound))
    ensures !Falsy(name) && !tableExists ==> r == Some(Response(false, TableNotFound(name.value)))
    ensures !Falsy(name) && tableExists && rowCount == 0 ==> r == Some(Response(false, NoRecords(name.value)))
  {
    if Falsy(name) then Some(Response(false, ParameterNotFound))
    else if !tableExists then Some(Response(false, TableNotFound(name.value)))
    else if rowCount == 0 then Some(Response(false, NoRecords(name.value)))
    else None
  }

  const Success := Response(true, "SEEDER SUCCESS.")

  /** `setPath`: trailing `/` removed, then trailing `\`, then one separator appended. */
  function NormalizePath(p: string, sep: char): (r: string)
    ensures |r| > 0 && r[|r| - 1] == sep
    ensures r[..|r| - 1] <= p
    ensures |r| == 1 || r[|r| - 2] != '\\'
    ensures forall i :: |r| - 1 <= i < |p| ==> p[i] == '/' || p[i] == '\\'
    ensures '\\' !in p ==> |r| == 1 || r[|r| - 2] != '/'
  {
    var t1 := RTrim(p, '/');
    assert '\\' !in p ==> RTrim(t1, '\\') == t1 by {
      if '\\' !in p && t1 != [] {
        assert t1[|t1| - 1] == p[|t1| - 1];
        RTrimStops(t1, '\\');
      }
    }
    var t := RTrim(t1, '\\');
    assert (t + [sep])[..|t|] == t;
    t + [sep]
  }

  /**
   * Normalising twice is normalising once, except with `/` as separator on a
   * path whose part kept by the trimming ends in `/` (as `a/\`), which the
   * second pass shortens.
   */
  lemma NormalizePathIdempotent(p: string, sep: char)
    requires sep == '/' || sep == '\\'
    ensures var t := RTrim(RTrim(p, '/'), '\\');
      NormalizePath(NormalizePath(p, sep), sep) == NormalizePath(p, sep) <==>
      sep == '\\' || t == [] || t[|t| - 1] != '/'
  {
    if sep == '\\' {
      NormalizeTwiceBackslash(p);
    } else {
      NormalizeTwiceSlash(p);
    }
  }

  lemma NormalizeTwiceBackslash(p: string)
    ensures NormalizePath(NormalizePath(p, '\\'), '\\') == NormalizePath(p, '\\')
  {
    var t := RTrim(RTrim(p, '/'), '\\');
    RTrimStops(t, '\\');
    RTrimStops(t + ['\\'], '/');
    RTrimDropsLast(t, '\\');
  }

  lemma NormalizeTwiceSlash(p: string)
    ensures var t := RTrim(RTrim(p, '/'), '\\');
      NormalizePath(NormalizePath(p, '/'), '/') == NormalizePath(p, '/') <==> t == [] || t[|t| - 1] != '/'
  {
    var t := RTrim(RTrim(p, '/'), '\\');
    var q := t + ['/'];
    RTrimDropsLast(t, '/');
    if t == [] || t[|t| - 1] != '/' {
      RTrimStops(t, '/');
      RTrimStops(t, '\\');
    } else {
      assert |RTrim(t, '/')| < |t| by {
        assert t == t[..|t| - 1] + ['/'];
        RTrimDropsLast(t[..|t| - 1], '/');
      }
      assert |NormalizePath(q, '/')| < |q|;
    }
  }

  /** The case that shows it: `a/\` normalises to `a//` under `/`. */
  lemma NormalizePathKeepsInnerSlash()
    ensures NormalizePath("a/\\", '/') == "a//"
  {
    assert RTrim("a/\\", '/') == "a/\\";
    assert RTrim("a/\\", '\\') == "a/" by {
      assert "a/\\"[..2] == "a/";
    }
  }

  /** A folder path as `setPath` leaves it: ends with the separator, not preceded by a backslash. */
  predicate NormalPath(q: string, sep: char)
  {
    |q| > 0 && q[|q| - 1] == sep && (|q| == 1 || q[|q| - 2] != '\\')
  }

  /** `SEEDER_PATH` when nothing defined it before the library loaded: `APPPATH . 'migrations'`. */
  function DefaultSeederPath(appPath: string): (d: string)
    ensures d != [] && d[|d| - 1] != '/' && d[|d| - 1] != '\\'
  {
    appPath + "migrations"
  }

  /**
   * `setPath()` with its default argument stores the folder `getPath` falls
   * back to exactly when `SEEDER_PATH` does not end in `/` or `\`.
   */
  lemma NormalizeMatchesFallback(sp: string, sep: char)
    ensures NormalizePath(sp, sep) == sp + [sep] <==>
      sp == [] || (sp[|sp| - 1] != '/' && sp[|sp| - 1] != '\\')
  {
    if sp == [] || (sp[|sp| - 1] != '/' && sp[|sp| - 1] != '\\') {
      RTrimStops(sp, '/');
      RTrimStops(sp, '\\');
    } else if sp[|sp| - 1] == '/' {
      RTrimDropsLast(sp[..|sp| - 1], '/');
      assert sp[..|sp| - 1] + ['/'] == sp;
      assert |RTrim(sp, '/')| < |sp|;
    } else {
      RTrimStops(sp, '/');
      RTrimDropsLast(sp[..|sp| - 1], '\\');
      assert sp[..|sp| - 1] + ['\\'] == sp;
      assert |RTrim(sp, '\\')| < |sp|;
    }
  }

  class Seeder {
    /** The platform the library runs on. */
    const platform: Platform
    /** `SEEDER_PATH`: as defined before the library loaded, else `DefaultSeederPath(APPPATH)`. */
    const seederPath: string
    /** The `$conn` field: the connection named in the generated file; null until `setConn`. */
    var conn: Option<string>
    /** The `$path` field: the target folder; null until `setPath`. */
    var path: Option<string>
    /** The `$filePointer` field, as the full path of the file it writes to. */
    var filePointer: Option<string>
    /** The filesystem: full path to file content. */
    var files: map<string, string>

    ghost predicate Valid()
      reads this`path, this`filePointer, this`files
    {
      (path.Some? ==> NormalPath(path.value, platform.Sep())) &&
      (filePointer.Some? ==> filePointer.value in files)
    }

    constructor (platform: Platform, seederPath: string, disk: map<string, string>)
      ensures Valid()
      ensures this.platform == platform && this.seederPath == seederPath
      ensures conn == None && path == None && filePointer == None && files == disk
    {
      this.platform := platform;
      this.seederPath := seederPath;
      conn := None;
      path := None;
      filePointer := None;
      files := disk;
    }

    /** `setPath`: stores the folder with its trailing slashes and backslashes replaced by one separator. */
    method SetPath(p: string)
      requires Valid()
      modifies this`path
      ensures Valid()
      ensures path == Some(NormalizePath(p, platform.Sep()))
    {
      var t := RTrim(RTrim(p, '/'), '\\');
      path := Some(t + [platform.Sep()]);
    }

    /**
     * `setPath()` with its default argument `SEEDER_PATH`. The folder it
     * stores is the one `getPath` falls back to exactly when `SEEDER_PATH`
     * does not end in `/` or `\`, as with `DefaultSeederPath`.
     */
    method SetPathDefault()
      requires Valid()
      modifies this`path
      ensures Valid()
      ensures path == Some(NormalizePath(seederPath, platform.Sep()))
      ensures GetPath() == seederPath + [platform.Sep()] <==>
        seederPath == [] || (seederPath[|seederPath| - 1] != '/' && seederPath[|seederPath| - 1] != '\\')
    {
      NormalizeMatchesFallback(seederPath, platform.Sep());
      SetPath(seederPath);
    }

    /** `setConn`: stores the connection name. */
    method SetConn(c: string)
      modifies this`conn
      ensures conn == Some(c)
    {
      conn := Some(c);
    }

    /** `setConn()` with its default argument: the connection `default`, as when none is set. */
    method SetConnDefault()
      modifies this`conn
      ensures conn == Some("default")
      ensures GetConn() == "default"
    {
      SetConn("default");
    }

    /** `getPath`: the stored folder, or `SEEDER_PATH` and a separator when none was set. */
    function GetPath(): (r: string)
      reads this`path
      ensures path.Some? ==> r == path.value
      ensures path.None? ==> r == seederPath + [platform.Sep()]
      ensures Valid() ==> |r| > 0 && r[|r| - 1] == platform.Sep()
    {
      match path
      case Some(p) => p
      case None => seederPath + [platform.Sep()]
    }

    /** `getConn`: the stored connection, or `default` when none was set. */
    function GetConn(): (r: string)
      reads this`conn
      ensures conn.Some? ==> r == conn.value
      ensures conn.None? ==> r == "default"
    {
      match conn
      case Some(c) => c
      case None => "default"
    }

    /** `createFile`: any file at `dir + name` is replaced by an empty one, which becomes the file written to. */
    method CreateFile(dir: string, name: string)
      requires Valid()
      modifies this`files, this`filePointer
      ensures Valid()
      ensures files == old(files)[dir + name := ""]
      ensures filePointer == Some(dir + name)
    {
      var fullPath := dir + name;
      files := files[fullPath := ""];
      filePointer := Some(fullPath);
    }

    /** `fwrite` on the open file: the text is appended to its content. */
    method Write(text: string)
      requires Valid() && filePointer.Some?
      modifies this`files
      ensures Valid()
      ensures files == old(files)[filePointer.value := old(files)[filePointer.value] + text]
    {
      var fp := filePointer.value;
      files := files[fp := files[fp] + text];
    }

    /**
     * The success path of `seed`: renders the seeder for `rows` and writes
     * it, with a trailing line terminator, to a freshly created
     * `<count>_seeder_<name>.php` in the target folder.
     */
    method WriteSeeder(name: string, rows: seq<Row>, count: Ordinal)
      requires Valid()
      requires rows != []
      modifies this`files, this`filePointer
      ensures Valid()
      ensures var full := GetPath() + FileName(count, name);
        filePointer == Some(full) &&
        files == old(files)[full := SeederBody(name, GetConn(), rows, platform.Eol()) + platform.Eol()]
    {
      var body := RenderSeeder(name, GetConn(), rows, platform.Eol());
      ghost var before := files;
      CreateFile(GetPath(), Text(count) + "_seeder_" + name + ".php");
      Write(body + platform.Eol());
      assert "" + (body + platform.Eol()) == body + platform.Eol();
    }

    /**
     * `seed`: validates, renders the seeder for `rows`, and writes it with
     * a trailing line terminator to `<count>_seeder_<name>.php` in the
     * target folder, `count` coming from the folder listing `existing`.
     */
    method Seed(name: Option<string>, tableExists: bool, rows: seq<Row>, existing: seq<string>) returns (res: Response)
      requires Valid()
      modifies this`files, this`filePointer
      ensures Valid()
      ensures Validate(name, tableExists, |rows|).Some? ==>
        res == Validate(name, tableExists, |rows|).value &&
        files == old(files) && filePointer == old(filePointer)
      ensures Validate(name, tableExists, |rows|).None? ==>
        var full := GetPath() + FileName(Latest(existing), name.value);
        res == Success && filePointer == Some(full) &&
        files == old(files)[full := SeederBody(name.value, GetConn(), rows, platform.Eol()) + platform.Eol()]
    {
      var failure := Validate(name, tableExists, |rows|);
      if failure.Some? {
        return failure.value;
      }
      var count := Latest(existing);
      WriteSeeder(name.value, rows, count);
      return Success;
    }
  }
}
