/** `utils.notPi` of lib/utils.ts: the host platform string (`process.platform`) is a parameter. */
module Platform {

  /** True on a restricted platform: the platform string starts with "win" or "darwin". */
  function NotPi(platform: string): (r: bool)
    ensures r <==> (exists rest :: platform == "win" + rest) || (exists rest :: platform == "darwin" + rest)
  {
    assert "win" <= platform ==> platform == "win" + platform[3..];
    assert "darwin" <= platform ==> platform == "darwin" + platform[6..];
    "win" <= platform || "darwin" <= platform
  }

  /** The values Node reports: only Windows and macOS are restricted; the test is on the prefix only. */
  lemma KnownPlatforms()
    ensures NotPi("win32") && NotPi("darwin")
    ensures !NotPi("linux") && !NotPi("freebsd") && !NotPi("android") && !NotPi("cygwin")
  {
    assert "linux"[0] != 'w' && "linux"[0] != 'd';
    assert "freebsd"[0] != 'w' && "freebsd"[0] != 'd';
    assert "android"[0] != 'w' && "android"[0] != 'd';
    assert "cygwin"[0] != 'w' && "cygwin"[0] != 'd';
  }
}
