/**
 * `Config.get_database_uri`: the database URL taken from the environment, with
 * the legacy `postgres://` scheme renamed to the `postgresql://` one the
 * database driver accepts, or a local SQLite file when the variable is unset
 * or empty. The environment value and the local path are parameters.
 */
module Settings {
  import opened Wrappers
  import opened Text

  const Postgres := "postgres://"
  const Postgresql := "postgresql://"
  const Sqlite := "sqlite:///"

  /** `s.replace(pat, rep, 1)`: the first occurrence of `pat` replaced by `rep`. */
  function ReplaceFirst(s: string, pat: string, rep: string): string
  {
    if StartsWith(s, pat) then rep + s[|pat|..]
    else if s == [] then s
    else [s[0]] + ReplaceFirst(s[1..], pat, rep)
  }

  /** A string without `pat` in it is left alone. */
  lemma {:induction false} ReplaceFirstAbsent(s: string, pat: string, rep: string)
    requires forall i :: 0 <= i <= |s| ==> !StartsWith(s[i..], pat)
    ensures ReplaceFirst(s, pat, rep) == s
  {
    assert s[0..] == s;
    if s != [] {
      forall i | 0 <= i <= |s[1..]| ensures !StartsWith(s[1..][i..], pat) {
        assert s[1..][i..] == s[i + 1..];
      }
      ReplaceFirstAbsent(s[1..], pat, rep);
    }
  }

  function DatabaseUri(env: Option<string>, localPath: string): (r: string)
  {
    if env.Some? && env.value != "" then
      if StartsWith(env.value, Postgres) then ReplaceFirst(env.value, Postgres, Postgresql) else env.value
    else Sqlite + localPath
  }

  /** The rep scheme does not start with the pat one, so a rewritten URL is not rewritten again. */
  lemma PostgresqlIsNotPostgres(u: string)
    requires StartsWith(u, Postgresql)
    ensures !StartsWith(u, Postgres)
  {
    assert u[..|Postgres|][8] == Postgresql[8] != Postgres[8];
  }

  /**
   * A set URL that starts with `postgres://` has exactly that prefix replaced by
   * `postgresql://`; any other set URL, `postgresql://` ones included, is
   * returned unchanged; an unset or empty variable gives the SQLite file.
   */
  lemma DatabaseUriMeans(env: Option<string>, localPath: string)
    ensures var r := DatabaseUri(env, localPath);
      && (env.Some? && StartsWith(env.value, Postgres) ==>
            r == Postgresql + env.value[|Postgres|..] && StartsWith(r, Postgresql))
      && (env.Some? && env.value != "" && !StartsWith(env.value, Postgres) ==> r == env.value)
      && (env.Some? && StartsWith(env.value, Postgresql) ==> r == env.value)
      && (env.None? || env.value == "" ==> r == Sqlite + localPath)
  {
    var r := DatabaseUri(env, localPath);
    if env.Some? && StartsWith(env.value, Postgres) {
      assert r[..|Postgresql|] == Postgresql;
    }
    if env.Some? && StartsWith(env.value, Postgresql) {
      PostgresqlIsNotPostgres(env.value);
    }
  }

  /** Feeding the result back in as the variable gives it back: the rewrite is idempotent. */
  lemma DatabaseUriIdempotent(env: Option<string>, localPath: string)
    ensures DatabaseUri(Some(DatabaseUri(env, localPath)), localPath) == DatabaseUri(env, localPath)
  {
    var r := DatabaseUri(env, localPath);
    DatabaseUriMeans(env, localPath);
    if env.Some? && StartsWith(env.value, Postgres) {
      PostgresqlIsNotPostgres(r);
    } else if env.None? || env.value == "" {
      if |Postgres| <= |r| {
        assert r[..|Postgres|][0] == r[0] == 's' != Postgres[0];
      }
    }
  }
}
