/** The platform tag handed to the `.gitignore` generator. */
module Platform {
  import opened Wrappers

  /** Node's `process.platform` names that have a generator tag. */
  const KnownPlatforms: set<string> := {"darwin", "linux", "win32"}

  /**
   * The generator's tag for a host platform: `darwin` to `osx`, `linux` to
   * `linux`, `win32` to `windows`; any other platform has none.
   */
  function GitIgnorePlatform(platform: string): (tag: Option<string>)
    ensures tag.Some? <==> platform in KnownPlatforms
    ensures platform == "darwin" ==> tag == Some("osx")
    ensures platform == "linux" ==> tag == Some("linux")
    ensures platform == "win32" ==> tag == Some("windows")
    ensures tag.Some? ==> HostPlatform(tag.value) == Some(platform)
  {
    if platform == "darwin" then Some("osx")
    else if platform == "linux" then Some("linux")
    else if platform == "win32" then Some("windows")
    else None
  }

  /**
   * The reverse lookup, from a generator tag back to the host platform; with
   * it, `GitIgnorePlatform` is shown to lose no information.
   */
  function HostPlatform(tag: string): (platform: Option<string>)
    ensures platform.Some? ==> platform.value in KnownPlatforms
  {
    if tag == "osx" then Some("darwin")
    else if tag == "linux" then Some("linux")
    else if tag == "windows" then Some("win32")
    else None
  }
}
