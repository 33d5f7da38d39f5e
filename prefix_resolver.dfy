/**
 * `construct_upload_prefix`: the key prefix under which files are uploaded.
 * An explicit prefix wins when it is non-empty; otherwise the text of the
 * prefix configuration file is used; with neither, the prefix is empty.
 * The configuration file is not read here: `configText` is `None` when no
 * file is named and `Some(text)` with the file's text when one is.
 */
module PrefixResolver {
  import opened Wrappers

  function ConstructUploadPrefix(uploadPrefix: string, configText: Option<string>): (prefix: string)
    ensures uploadPrefix != [] ==> prefix == uploadPrefix
    ensures uploadPrefix == [] && configText.Some? ==> prefix == configText.value
    ensures uploadPrefix == [] && configText.None? ==> prefix == []
  {
    if uploadPrefix != [] then uploadPrefix
    else configText.GetOr([])
  }

  /** A non-empty explicit prefix makes the configuration file irrelevant. */
  lemma ExplicitPrefixIgnoresConfig(uploadPrefix: string, config1: Option<string>, config2: Option<string>)
    requires uploadPrefix != []
    ensures ConstructUploadPrefix(uploadPrefix, config1) == ConstructUploadPrefix(uploadPrefix, config2)
  {
  }
}
