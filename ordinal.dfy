/**
 * `latest`: the ordinal prefix of the next seeder file, computed from the
 * names of the `.php` files already in the target folder; and the seeder
 * file name built from it.
 */
module Ordinal {
  import opened StringHelpers
  import opened PhpInt
  import opened LexOrder

  /** What `latest` returns: the string `'001'` for an empty folder, otherwise an int. */
  datatype Ordinal = Default | Next(n: nat)

  /** The text the ordinal contributes when concatenated into a file name. */
  function Text(o: Ordinal): (r: string)
    ensures |r| > 0 && AllDigits(r)
  {
    match o
    case Default => "001"
    case Next(n) => NatToDecimal(n)
  }

  /** The ordinal recorded in a listed file name: after its last backslash, before its first underscore, cast to int. */
  function OrdinalOf(fileName: string): nat
  {
    ToInt(Before(AfterLast(fileName, "\\"), "_"))
  }

  /**
   * `latest`, given the listing `glob` and `is_file` produce for the folder:
   * one more than the ordinal of the greatest name, which is the name
   * `rsort` puts first (`LatestReadsSortedHead`).
   */
  function Latest(files: seq<string>): (o: Ordinal)
    ensures o == Default <==> files == []
    ensures o.Next? ==> o.n >= 1
  {
    if |files| > 0 then Next(OrdinalOf(MaxLex(files)) + 1)
    else Default
  }

  /** The file name `seed` writes: `<count>_seeder_<name>.php`. */
  function FileName(count: Ordinal, name: string): (r: string)
    ensures Text(count) <= r
    ensures IsSuffix("_seeder_" + name + ".php", r)
  {
    var r := Text(count) + "_seeder_" + name + ".php";
    assert r[|r| - |"_seeder_" + name + ".php"|..] == "_seeder_" + name + ".php";
    r
  }

  /** `latest` reads the ordinal of the first name after `rsort`, and continues from it. */
  lemma LatestReadsSortedHead(files: seq<string>)
    requires files != []
    ensures Latest(files) == Next(OrdinalOf(RSort(files)[0]) + 1)
  {
    RSortHeadIsMax(files);
  }

  /** A listing of one name continues from that name's ordinal. */
  lemma LatestOfOne(f: string)
    ensures Latest([f]) == Next(OrdinalOf(f) + 1)
  {
    assert MaxLex([f]) == f;
  }

  /** A name with no backslash, made of digits, an underscore and anything else, records the value of those digits. */
  lemma OrdinalOfDigitsName(ds: string, rest: string)
    requires AllDigits(ds)
    requires '\\' !in ds + "_" + rest
    ensures OrdinalOf(ds + "_" + rest) == DigitsValue(ds)
  {
    var f := ds + "_" + rest;
    NoCharNotContained(f, '\\');
    assert AfterLast(f, "\\") == f;
    assert OccursAt(f, "_", |ds|);
    var b := Before(f, "_");
    BeforeStopsAtFirstOccurrence(f, "_");
    assert f[|b|] == '_' by { assert (b + "_")[|b|] == '_'; }
    assert |b| == |ds|;
    assert b == ds;
    assert b + "" == b;
    LeadingDigitsOfDigitsThen(ds, "");
  }

  /** Behind the last backslash of a path that ends in one lies exactly the part after it. */
  lemma AfterLastBackslash(dir: string, base: string)
    requires |dir| > 0 && dir[|dir| - 1] == '\\'
    requires '\\' !in base
    ensures AfterLast(dir + base, "\\") == base
  {
    var f := dir + base;
    assert OccursAt(f, "\\", |dir| - 1);
    var r := AfterLast(f, "\\");
    AfterLastCutsAtLastOccurrence(f, "\\");
    var q := |f| - |r| - 1;
    assert f[q] == '\\' by { assert f[q..q + 1] == "\\"; }
    assert f[|f| - |base|..] == base;
  }

  /** With no separator in `s`, no occurrence of it either. */
  lemma NoCharNotContained(s: string, c: char)
    requires c !in s
    ensures !Contains(s, [c])
  {
    forall i | 0 <= i <= |s| ensures !OccursAt(s, [c], i) {
      if i < |s| { assert s[i..i + 1][0] == s[i]; }
    }
  }

  lemma ExampleOrdinal(name: string)
    requires '\\' !in name
    ensures OrdinalOf("003_seeder_" + name + ".php") == DigitsValue("003")
  {
    var rest := "seeder_" + name + ".php";
    assert "003_seeder_" + name + ".php" == "003" + "_" + rest;
    assert '\\' !in rest by {
      assert rest == "seeder_" + name + ".php";
    }
    OrdinalOfDigitsName("003", rest);
  }

  lemma ThreeDigits()
    ensures DigitsValue("003") == 3
  {
    assert "003"[..2] == "00" && "00"[..1] == "0" && "0"[..0] == "";
  }

  /**
   * The worked example: with backslash-separated paths, a folder holding
   * only `003_seeder_<name>.php` gets ordinal 4.
   */
  lemma LatestOfExample(dir: string, name: string)
    requires |dir| > 0 && dir[|dir| - 1] == '\\'
    requires '\\' !in name
    ensures Latest([dir + ("003_seeder_" + name + ".php")]) == Next(4)
    ensures Text(Latest([dir + ("003_seeder_" + name + ".php")])) == "4"
  {
    var base := "003_seeder_" + name + ".php";
    assert '\\' !in base by {
      assert base == "003_seeder_" + name + ".php";
    }
    ExampleOrdinal(name);
    ThreeDigits();
    OrdinalInFolder(dir, base);
    LatestOfOne(dir + base);
    assert NatToDecimal(4) == "4";
  }

  /** The same folder with `/`-separated paths gets ordinal 1: the cast sees the leading `/`. */
  lemma LatestOfExampleOnUnix(dir: string, name: string)
    requires |dir| > 0 && dir[0] == '/' && '\\' !in dir
    requires '\\' !in name
    ensures Latest([dir + ("003_seeder_" + name + ".php")]) == Next(1)
  {
    var f := dir + ("003_seeder_" + name + ".php");
    assert '\\' !in f by {
      assert f == dir + "003_seeder_" + name + ".php";
    }
    LatestOnUnixPaths([f]);
  }

  /** The number an ordinal's text stands for. */
  function Value(o: Ordinal): nat
  {
    match o
    case Default => 1
    case Next(n) => n
  }

  lemma TextValue(o: Ordinal)
    ensures DigitsValue(Text(o)) == Value(o)
  {
    match o
    case Default =>
      assert "001"[..2] == "00" && "00"[..1] == "0" && "0"[..0] == "";
    case Next(n) =>
      DigitsValueOfDecimal(n);
  }

  /** Inside a folder ending in a backslash, a name without one keeps its own ordinal. */
  lemma OrdinalInFolder(dir: string, base: string)
    requires |dir| > 0 && dir[|dir| - 1] == '\\'
    requires '\\' !in base
    ensures OrdinalOf(dir + base) == OrdinalOf(base)
  {
    AfterLastBackslash(dir, base);
    NoCharNotContained(base, '\\');
  }

  /** A generated file name records the ordinal it was generated with. */
  lemma OrdinalOfFileName(count: Ordinal, name: string)
    requires '\\' !in name
    ensures '\\' !in FileName(count, name)
    ensures OrdinalOf(FileName(count, name)) == Value(count)
  {
    var t := Text(count);
    var rest := "seeder_" + name + ".php";
    assert FileName(count, name) == t + "_" + rest;
    assert '\\' !in rest by {
      assert rest == "seeder_" + name + ".php";
    }
    assert '\\' !in t by {
      assert AllDigits(t);
    }
    assert '\\' !in t + "_" + rest;
    OrdinalOfDigitsName(t, rest);
    TextValue(count);
  }

  /**
   * With backslash-separated paths (the folder ends in a backslash and the
   * table name has none), a folder holding only the file just written
   * continues from that file's ordinal.
   */
  lemma LatestAfterOwnFile(dir: string, count: Ordinal, name: string)
    requires |dir| > 0 && dir[|dir| - 1] == '\\'
    requires '\\' !in name
    ensures Latest([dir + FileName(count, name)]) == Next(Value(count) + 1)
  {
    OrdinalOfFileName(count, name);
    OrdinalInFolder(dir, FileName(count, name));
    LatestOfOne(dir + FileName(count, name));
  }

  /** A name that does not start with `_` keeps its first character in front of the first `_`. */
  lemma BeforeUnderscoreStartsLike(s: string)
    requires s != [] && s[0] != '_'
    ensures Before(s, "_") != [] && Before(s, "_")[0] == s[0]
  {
    var b := Before(s, "_");
    if Contains(s, "_") {
      assert (b + "_")[0] == s[0];
    }
  }

  /** A slash-rooted path without backslashes casts to 0: the cast sees the `/`. */
  lemma OrdinalOfUnixPath(f: string)
    requires |f| > 0 && f[0] == '/' && '\\' !in f
    ensures OrdinalOf(f) == 0
  {
    NoCharNotContained(f, '\\');
    BeforeUnderscoreStartsLike(f);
    ToIntOfNonDigit(Before(f, "_"));
  }

  /**
   * With slash-separated absolute paths, as `glob` returns them on Unix, the
   * cast sees the leading `/` and every ordinal after the first is 1.
   */
  lemma LatestOnUnixPaths(files: seq<string>)
    requires files != []
    requires forall f :: f in files ==> |f| > 0 && f[0] == '/' && '\\' !in f
    ensures Latest(files) == Next(1)
  {
    var f := MaxLex(files);
    assert f in files;
    OrdinalOfUnixPath(f);
  }

  /** Prefixing both names with the same folder does not change their order. */
  lemma {:induction false} LexLeCommonPrefix(dir: string, x: string, y: string)
    ensures LexLe(dir + x, dir + y) <==> LexLe(x, y)
    decreases |dir|
  {
    if dir != [] {
      assert (dir + x)[1..] == dir[1..] + x;
      assert (dir + y)[1..] == dir[1..] + y;
      LexLeCommonPrefix(dir[1..], x, y);
    } else {
      assert dir + x == x && dir + y == y;
    }
  }

  /**
   * The string sort picks `9_…` over `10_…`: once ordinal 10 has been
   * written after ordinal 9, the next allocation is 10 again.
   */
  lemma LatestRepeatsTen(dir: string, a: string, b: string)
    requires |dir| > 0 && dir[|dir| - 1] == '\\'
    requires '\\' !in a && '\\' !in b
    ensures Latest([dir + FileName(Next(9), a), dir + FileName(Next(10), b)]) == Next(10)
  {
    var f9, f10 := FileName(Next(9), a), FileName(Next(10), b);
    assert NatToDecimal(9) == "9";
    assert NatToDecimal(10) == "10" by {
      assert NatToDecimal(1) == "1";
    }
    assert !LexLe(f9, f10) by {
      assert f9[0] == '9' && f10[0] == '1';
    }
    LexLeCommonPrefix(dir, f9, f10);
    var files := [dir + f9, dir + f10];
    assert MaxLex(files) == dir + f9 by {
      assert files[1..] == [dir + f10];
    }
    LatestAfterOwnFile(dir, Next(9), a);
    LatestOfOne(dir + f9);
  }
}
