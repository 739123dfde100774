/** The export options: ten named flags parsed from the option string by substring membership. */
module Options {
  import opened Strings

  /** `componentKeys` of the writer, in declaration order. */
  const ComponentKeys: seq<string> := [
    "vertices", "normals", "groups", "uvs", "dedupe",
    "materials", "diffuseMaps", "specularMaps", "bumpMaps",
    "prettyOutput"
  ]

  /** Reads a flag of a parsed option dict (every component key is present after parsing). */
  function Flag(options: map<string, bool>, key: string): bool
  {
    key in options && options[key]
  }

  /**
   * `_parseOptions`: starts from every component key mapped to false, then sets
   * each key to whether it occurs in the option string.
   */
  method ParseOptions(optionsString: string) returns (options: map<string, bool>)
    ensures options.Keys == set k | k in ComponentKeys
    ensures forall k :: k in options ==> (options[k] <==> IsSubstring(k, optionsString))
  {
    options := map k | k in ComponentKeys :: false;
    for i := 0 to |ComponentKeys|
      invariant options.Keys == set k | k in ComponentKeys
      invariant forall k :: k in ComponentKeys[..i] ==> options[k] == Contains(optionsString, k)
      invariant forall k :: k in ComponentKeys && k !in ComponentKeys[..i] ==> !options[k]
    {
      var key := ComponentKeys[i];
      assert ComponentKeys[..i + 1] == ComponentKeys[..i] + [key];
      options := options[key := Contains(optionsString, key)];
    }
    assert ComponentKeys[..|ComponentKeys|] == ComponentKeys;
  }
}
