/**
  The partition layout of event objects: `env_key=<env>/year=yyyy/month=MM/day=dd/hour=HH/<file>`.
  Every number is zero-padded, so the order of keys is the order of time.
 */
module PartitionKeys {
  import opened Strings

  datatype Hour = Hour(year: nat, month: nat, day: nat, hour: nat)
  {
    predicate Valid() {
      year < 10000 && 1 <= month <= 12 && 1 <= day <= 31 && hour < 24
    }

    predicate Before(other: Hour) {
      || year < other.year
      || (year == other.year && month < other.month)
      || (year == other.year && month == other.month && day < other.day)
      || (year == other.year && month == other.month && day == other.day && hour < other.hour)
    }
  }

  function Pow10(w: nat): nat
  {
    if w == 0 then 1 else 10 * Pow10(w - 1)
  }

  /** The last `w` decimal digits of a number below 10^w, zero-padded. */
  function Padded(n: nat, w: nat): (s: string)
    requires n < Pow10(w)
    ensures |s| == w
  {
    if w == 0 then "" else Padded(n / 10, w - 1) + [('0' as int + n % 10) as char]
  }

  lemma {:induction false} PaddedOrder(a: nat, b: nat, w: nat)
    requires a < Pow10(w) && b < Pow10(w)
    ensures Less(Padded(a, w), Padded(b, w)) <==> a < b
    ensures Padded(a, w) == Padded(b, w) ==> a == b
  {
    if w > 0 {
      PaddedOrder(a / 10, b / 10, w - 1);
      var p, q := Padded(a / 10, w - 1), Padded(b / 10, w - 1);
      var x, y := [('0' as int + a % 10) as char], [('0' as int + b % 10) as char];
      assert Padded(a, w) == p + x && Padded(b, w) == q + y;
      assert Padded(a, w)[..w - 1] == p && Padded(b, w)[..w - 1] == q;
      assert Padded(a, w)[w - 1] == x[0] && Padded(b, w)[w - 1] == y[0];
      if a / 10 == b / 10 {
        LessSharedPrefix(p, x, y);
        assert Less(x, y) <==> x[0] < y[0];
      } else {
        LessDecidedByPrefix(p, q, x, y);
      }
    }
  }

  function Field(tag: string, n: nat, w: nat, rest: string): string
    requires n < Pow10(w)
  {
    tag + (Padded(n, w) + rest)
  }

  lemma FieldOrder(tag: string, a: nat, b: nat, w: nat, rest: string, rest': string)
    requires a < Pow10(w) && b < Pow10(w)
    ensures Less(Field(tag, a, w, rest), Field(tag, b, w, rest')) <==> a < b || (a == b && Less(rest, rest'))
  {
    LessSharedPrefix(tag, Padded(a, w) + rest, Padded(b, w) + rest');
    PaddedOrder(a, b, w);
    if a == b {
      LessSharedPrefix(Padded(a, w), rest, rest');
    } else {
      LessDecidedByPrefix(Padded(a, w), Padded(b, w), rest, rest');
    }
  }

  lemma PowersOfTen()
    ensures Pow10(2) == 100 && Pow10(4) == 10000
  {
  }

  function EnvironmentPath(env: string): string
  {
    "env_key=" + env + "/"
  }

  /** Where the pipeline files an event object of one environment and hour. */
  function ObjectPath(env: string, t: Hour, file: string): string
    requires t.Valid()
  {
    PowersOfTen();
    EnvironmentPath(env) +
    Field("year=", t.year, 4, Field("/month=", t.month, 2,
                                    Field("/day=", t.day, 2, Field("/hour=", t.hour, 2, "/" + file))))
  }

  /** Lexicographic order of keys is chronological order of hours; files of one hour go by name. */
  lemma KeyOrderIsChronological(env: string, t: Hour, file: string, u: Hour, file': string)
    requires t.Valid() && u.Valid()
    ensures Less(ObjectPath(env, t, file), ObjectPath(env, u, file')) <==> t.Before(u) || (t == u && Less(file, file'))
  {
    PowersOfTen();
    var h, h' := Field("/hour=", t.hour, 2, "/" + file), Field("/hour=", u.hour, 2, "/" + file');
    var d, d' := Field("/day=", t.day, 2, h), Field("/day=", u.day, 2, h');
    var m, m' := Field("/month=", t.month, 2, d), Field("/month=", u.month, 2, d');
    LessSharedPrefix("/", file, file');
    FieldOrder("/hour=", t.hour, u.hour, 2, "/" + file, "/" + file');
    FieldOrder("/day=", t.day, u.day, 2, h, h');
    FieldOrder("/month=", t.month, u.month, 2, d, d');
    FieldOrder("year=", t.year, u.year, 4, m, m');
    LessSharedPrefix(EnvironmentPath(env), Field("year=", t.year, 4, m), Field("year=", u.year, 4, m'));
  }

  ghost predicate Sorted(paths: seq<string>)
  {
    forall i, j :: 0 <= i < j < |paths| ==> Less(paths[i], paths[j])
  }

  /** Any prefix of a listing holds its oldest hours: nothing left behind is older. */
  lemma PrefixIsOldest(env: string, paths: seq<string>, hours: seq<Hour>, files: seq<string>, done: nat)
    requires |paths| == |hours| == |files| && done <= |paths| && Sorted(paths)
    requires forall i :: 0 <= i < |paths| ==> hours[i].Valid() && paths[i] == ObjectPath(env, hours[i], files[i])
    ensures forall i, j :: 0 <= i < done <= j < |paths| ==> !hours[j].Before(hours[i])
  {
    forall i, j | 0 <= i < done <= j < |paths| ensures !hours[j].Before(hours[i]) {
      KeyOrderIsChronological(env, hours[i], files[i], hours[j], files[j]);
      KeyOrderIsChronological(env, hours[j], files[j], hours[i], files[i]);
      LessTrichotomy(paths[i], paths[j]);
    }
  }
}
