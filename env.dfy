/** The process environment, as read by `os.Getenv`. */
module Environment {

  type Env = map<string, string>

  /** `os.Getenv`: an unset variable reads as the empty string. */
  function Getenv(env: Env, key: string): (v: string)
    ensures key !in env ==> v == ""
    ensures key in env ==> v == env[key]
  {
    if key in env then env[key] else ""
  }

  /** The Go idiom `v := os.Getenv(k); if v == "" { v = fallback }`. */
  function GetenvOr(env: Env, key: string, fallback: string): (v: string)
    ensures Getenv(env, key) != "" ==> v == env[key]
    ensures Getenv(env, key) == "" ==> v == fallback
  {
    var v := Getenv(env, key);
    if v == "" then fallback else v
  }
}
