/** The constraints the `/aptoide` route puts on its `package_name` query
    parameter before any scraping happens, and what they mean for the
    `package_id` of the returned record. */
module Validation {
  import opened Wrappers
  import opened Text
  import opened FieldRules
  import opened Metadata

  /** A character of `[a-zA-Z0-9._-]`. */
  predicate IsQueryChar(c: char) {
    IsAsciiLetter(c) || IsDigit(c) || c == '.' || c == '_' || c == '-'
  }

  /** `min_length=3`, `max_length=255` and `^[a-zA-Z0-9._-]+$`. */
  predicate ValidPackageName(s: string) {
    3 <= |s| <= 255 && forall i | 0 <= i < |s| :: IsQueryChar(s[i])
  }

  /** Of the three placeholders only `None` gets through the validator: the
      other two are too short. */
  lemma ValidPlaceholderIsNone(s: string)
    requires ValidPackageName(s)
    ensures IsPlaceholder(s) <==> s == "None"
  {
    assert |s| >= 3;
  }

  /** `None` itself is a valid package name. */
  lemma NoneIsValid()
    ensures ValidPackageName("None") && IsPlaceholder("None")
  {
    var s := "None";
    assert IsQueryChar(s[0]) && IsQueryChar(s[1]) && IsQueryChar(s[2]) && IsQueryChar(s[3]);
  }

  /** For an accepted query the record's `package_id` is the requested name,
      and it is empty exactly when the name is `None`. */
  lemma PackageIdOfValidName(page: PageCaptures, packageName: string)
    requires ValidPackageName(packageName)
    ensures PackageId in Parsed(page, packageName)
    ensures packageName != "None" ==> Parsed(page, packageName)[PackageId] == Some(packageName)
    ensures packageName == "None" ==> Parsed(page, packageName)[PackageId] == None
  {
    ValidPlaceholderIsNone(packageName);
    ParsedPackageId(page, packageName);
  }
}
