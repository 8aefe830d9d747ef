# libs9s core: variants, objects and the RPC client's buffer and cookies

This project models three files of the `libs9s` library of s9s-tools, the
command-line client of a database cluster controller, and proves
properties of the model in Dafny.

- `S9sVariant` (`libs9s/s9svariant.cpp`) is a tagged union: Invalid, Int,
  Ulonglong, Double, Bool, String, List, Map and Node. The model has the
  conversions `toInt`, `toULongLong`, `toTimeT`, `toBoolean`, `toString`,
  `toNode`, `toVariantMap`, `toVariantList` and `typeName`, and the
  operators `==`, `<` and `[]`. `clear()` and `operator=` are methods of
  the class `VariantObject`, which holds one variant that they overwrite
  in place (`variant.dfy`).
- The C library calls these conversions depend on are written out in
  `text.dfy`: glibc `atoi` (a 64-bit clamp, then truncation to `int`),
  `strtoull` with base 0, `%d` and `%llu` formatting, C `isspace` trimming,
  `strcasecmp` and the byte order of `std::string`.
- `S9sObject` (`libs9s/s9sobject.cpp`) is a property bag, a map from name to
  variant. It is modelled as the class `Objects.Object`, whose setters
  update that map (`object.dfy`).
- `S9sRpcClientPrivate` (`libs9s/s9srpcclient_p.cpp`) is the state shared by
  an RPC client handle. The class `RpcClient.RpcClientPrivate` keeps:
  - the reference counter;
  - the receive buffer, as an `array<char>` with its capacity and used
    length;
  - the cookie map;
  - the Server header.

  Its methods are the buffer operations, the record framer
  (`hasCompleteJSon`, `getCompleteJSon`, `skipRecord`), the header parser
  (`parseHeaders`) and the `Cookie:` header writer (`cookieHeaders`). The
  framer's specification functions are in `framing.dfy`. Those of the
  cookie harvest and the header are in `cookies.dfy`.

Records in the stream end with a blank line (`"\n\n"`) or with the record
separator byte 30 (`'\036'`). A Dafny `char` stands for one C byte: every
text the model builds or inspects is made of characters below 256, and a
character at or above 256 stands for nothing in the system.

The comments above the three framer functions
(libs9s/s9srpcclient_p.cpp:437-444, 460-466 and 493-499) say that a record
ends with either the separator byte or an empty line. The model follows the
code wherever the code does something more specific or different:
- `getCompleteJSon` returns the record up to and including the first newline
  of the blank line that ends it (`Framing.FramedRecordRead`); its comment
  does not say how much of the terminator is returned.
- `hasCompleteJSon` as written does not, in general, detect the separator,
  although its comment says it should; it finds a separator only by
  accident: when dataSize % 256 == 30 and the separator lies in the first 30
  bytes of the allocation. See the first row of Findings.
- `skipRecord` as written can read the byte after the data; see the second
  row of Findings.

## Model

| member | source | states |
|---|---|---|
| Text.StrLessIrreflexive | libs9s/s9svariant.cpp:199-200 | No string is less than itself under std::string's byte order |
| Text.StrLessAsymmetric | libs9s/s9svariant.cpp:199-200 | If a < b as std::string then not b < a |
| Text.StrLessTransitive | libs9s/s9svariant.cpp:199-200 | std::string's order is transitive |
| Text.StrLessTotal | libs9s/s9svariant.cpp:199-200 | Two different strings are always ordered one way or the other |
| Text.NatToDecimalValue | libs9s/s9svariant.cpp:579-581 | The `%llu` digits of n denote n in base 10 |
| Text.AtoiOfDecimal | libs9s/s9svariant.cpp:363-364 | atoi of the `%d` text of an int gives that int back |
| Text.StrtoullOfDecimal | libs9s/s9svariant.cpp:413-417 | strtoull with base detection reads the `%llu` text of a value back, including "0", which base 8 reads |
| Variants.TypeName | libs9s/s9svariant.cpp:225-269 | The name is one of the nine lower-case tag names |
| Variants.TypeNameIdentifiesTag | libs9s/s9svariant.cpp:225-269 | Two variants have the same type name exactly when they have the same tag |
| Variants.ToNode | libs9s/s9svariant.cpp:272-291 | A Node gives its properties and any other type gives the empty node |
| Variants.ToVariantMap | libs9s/s9svariant.cpp:298-319 | A Map gives its entries, a Node gives its node's map and any other type gives the empty map |
| Variants.ToVariantList | libs9s/s9svariant.cpp:325-344 | A List gives its items and any other type gives the empty list |
| Variants.DoubleToInt | libs9s/s9svariant.cpp:369-370 | A double strictly inside the int range is truncated toward zero: a non-negative double loses a fraction in [0, 1), a negative one a fraction in (-1, 0] |
| Variants.DoubleToULongLong | libs9s/s9svariant.cpp:410-411 | A double within the unsigned 64-bit range is truncated toward zero, and one in (-1, 0) gives 0 |
| Variants.ToInt | libs9s/s9svariant.cpp:353-387 | The default for Invalid, aggregates and the empty string. Bool is 0 or 1. Int is itself. Ulonglong is congruent modulo 2^32 (a narrowing cast). A non-empty String is atoi of its text. Double is truncated |
| Variants.ToULongLong | libs9s/s9svariant.cpp:396-430 | The default for Invalid, aggregates and the empty string. Bool is 0 or 1. Ulonglong is itself. Int is congruent modulo 2^64 and unchanged when non-negative. A non-empty String is strtoull of its text with base detection. Double is truncated |
| Variants.ToTimeT | libs9s/s9svariant.cpp:433-436 | toULongLong(0) read as a signed 64-bit value: aggregates, Invalid and the empty string give 0. An Int keeps its value. A Ulonglong below 2^63 keeps its value, and one at or above 2^63 becomes u - 2^64. Bool is 0 or 1. A non-empty String is strtoull of its text, and a Double its truncation, both wrapped to 64 signed bits |
| Variants.ToBoolean | libs9s/s9svariant.cpp:496-553 | The default for Invalid, aggregates and a string that trims to empty. Bool is itself. Int, Ulonglong and Double are true when non-zero |
| Variants.ToString | libs9s/s9svariant.cpp:562-654 | String is itself, Bool is "true" or "false", Int is its `%d` text and Ulonglong its `%llu` text, and Invalid and aggregates are "" |
| Variants.WordsDisjoint | libs9s/s9svariant.cpp:514-527 | No word is both a true word and a false word, so the word tests of toBoolean never conflict |
| Variants.StringToBoolean | libs9s/s9svariant.cpp:507-534 | A string that trims to empty gives the default. Otherwise the trimmed text up to its first NUL, lower-cased, decides: a true word gives true, a false word false, and any other text gives whether atoi of the trimmed text is non-zero |
| Variants.BooleanWords | libs9s/s9svariant.cpp:507-528 | A string that trims to a true word in any case is true, and one that trims to a false word is false |
| Variants.OtherStringsUseLeadingInteger | libs9s/s9svariant.cpp:530-533 | Any other non-blank string is true exactly when atoi of the trimmed text is non-zero |
| Variants.IntTextRoundTrip | libs9s/s9svariant.cpp:363-364 | toInt of the String holding toString of an Int is that Int |
| Variants.ULongLongTextRoundTrip | libs9s/s9svariant.cpp:413-417 | toULongLong of the String holding toString of a Ulonglong is that value |
| Variants.LowerWordIsPlain | libs9s/s9svariant.cpp:507-528 | A word of lower-case letters is unchanged by trim, c_str and lower-casing, so toBoolean compares it as it is |
| Variants.BoolTextIsWord | libs9s/s9svariant.cpp:573-575 | toString of a Bool is already trimmed, lower case and NUL-free, and it is one of toBoolean's words for that value |
| Variants.BoolTextRoundTrip | libs9s/s9svariant.cpp:496-553 | toBoolean of the String holding toString of a Bool is that Bool, whatever the default |
| Variants.WordsStartWithLetter | libs9s/s9svariant.cpp:514-527 | Every boolean word is non-empty and starts with a letter, so none reads as a number |
| Variants.DecimalTextIsTrimmed | libs9s/s9svariant.cpp:576-578 | The `%d` text of an int is non-empty, has no surrounding space and no NUL, and starts with a digit or a minus sign |
| Variants.NumericTextIsNoWord | libs9s/s9svariant.cpp:507-528 | A text that starts with a digit or a minus sign is, in any letter case, neither a true word nor a false word |
| Variants.PlainTextAsBoolean | libs9s/s9svariant.cpp:530-533 | A trimmed, NUL-free text starting with a digit or a minus sign converts to whether its atoi is non-zero |
| Variants.IntTextAsBoolean | libs9s/s9svariant.cpp:530-533 | toBoolean of an Int's text is true exactly when the Int is non-zero |
| Variants.Equals | libs9s/s9svariant.cpp:152-187 | Equality holds only between two numbers, two Strings or two Bools, and never between a String and a non-String |
| Variants.StringNeverEqualsOther | libs9s/s9svariant.cpp:173-178 | A String never equals a non-String, in either order |
| Variants.EqualsExactWithinTag | libs9s/s9svariant.cpp:152-187 | Two Ints, two Ulonglongs, two Strings or two Bools are equal under == exactly when their payloads are equal |
| Variants.EqualsReflexiveOnlyOnScalars | libs9s/s9svariant.cpp:179-184 | Invalid, List, Map and Node equal nothing, themselves included. Every scalar equals itself |
| Variants.EqualsSymmetric | libs9s/s9svariant.cpp:152-187 | a == b exactly when b == a |
| Variants.MixedNumbersCompareByValue | libs9s/s9svariant.cpp:167-169 | Numbers of any two numeric tags with the same value are equal |
| Variants.Less | libs9s/s9svariant.cpp:190-203 | a < b holds only between two numbers or two Strings |
| Variants.LessIsStrictOrder | libs9s/s9svariant.cpp:190-203 | operator< is irreflexive, asymmetric and transitive on all variants |
| Variants.LessOnlyWithinCategory | libs9s/s9svariant.cpp:199-202 | Outside number-with-number and string-with-string, < is false |
| Variants.TrichotomyWithinExactTags | libs9s/s9svariant.cpp:193-200 | For two Ints, two Ulonglongs or two Strings, exactly one of <, == and > holds |
| Variants.VariantObject.constructor | libs9s/s9sobject.cpp:71-82 | A default-constructed variant is the empty, Invalid one |
| Variants.VariantObject.Copy | libs9s/s9svariant.cpp:45-77 | The copy has the original's tag and an equal payload |
| Variants.VariantObject.Clear | libs9s/s9svariant.cpp:661-696 | After clear() the variant is Invalid |
| Variants.VariantObject.Assign | libs9s/s9svariant.cpp:109-149 | After assignment the variant equals the right-hand side. Self-assignment changes nothing |
| Variants.VariantObject.Index | libs9s/s9svariant.cpp:205-222 | An Invalid variant becomes a one-entry map. A missing key is added as Invalid. An existing key leaves the map unchanged. The slot returned is the key's value |
| Framing.FindBlankLine | libs9s/s9srpcclient_p.cpp:507 | memmem for "\n\n" finds the first blank line, and none when there is none |
| Framing.CompleteRecord | libs9s/s9srpcclient_p.cpp:467-491 | The record is a slice of the data after the optional leading separator. It holds no separator and no blank line. It ends at the data's end, at a separator, or just before the second newline of a blank line |
| Framing.RecordEndIffTerminator | libs9s/s9srpcclient_p.cpp:471-488 | The scan of getCompleteJSon stops before the end of the text exactly when the text holds a blank line or a separator |
| Framing.TerminatorIffShortRecord | libs9s/s9srpcclient_p.cpp:437-488 | getCompleteJSon stops before the end of the data exactly when a blank line or a separator follows the leading separator. The data holds a terminator, a leading separator included, exactly when it is longer than the first record |
| Framing.LeadingSeparatorAlone | libs9s/s9srpcclient_p.cpp:437-488 | A separator followed by a record with no terminator counts as holding a terminator, yet getCompleteJSon returns that record up to the end of the data |
| Framing.SkipFirstRecord | libs9s/s9srpcclient_p.cpp:500-526 | There is nothing to skip exactly when there is no blank line. Otherwise the rest is a proper suffix of the data, at least 2 bytes shorter |
| Framing.FramedRecordRead | libs9s/s9srpcclient_p.cpp:467-491 | A record framed as [separator] record "\n\n" tail is read back as the record plus one newline |
| Framing.FramedRecordSkip | libs9s/s9srpcclient_p.cpp:500-526 | Skipping [separator] record "\n\n" [separator] rest leaves exactly rest |
| Framing.HasCompleteJSonAsWritten | libs9s/s9srpcclient_p.cpp:445-458 | As written: false without a buffer and true with a blank line. Otherwise the swapped memchr decides |
| Framing.HasCompleteJSonMissesSeparator | libs9s/s9srpcclient_p.cpp:454 | Data "{}" followed by a separator holds a complete record, yet the code as written reports none |
| Framing.HasCompleteJSonFalsePositive | libs9s/s9srpcclient_p.cpp:454 | Data " " with no terminator is reported complete when byte 1 of the allocation is 1 |
| Framing.HasCompleteJSonProbeFires | libs9s/s9srpcclient_p.cpp:454 | With at least 30 bytes of data, the code as written reports a complete record whenever the byte dataSize % 256 is among the first 30 bytes |
| Framing.HasCompleteJSonSpaceFalsePositive | libs9s/s9srpcclient_p.cpp:454 | 32 bytes of an unfinished JSON object holding a space, with no terminator, are reported complete |
| Framing.SkipRecordAsWritten | libs9s/s9srpcclient_p.cpp:500-526 | As written: nothing is skipped exactly when there is no blank line, and a skip shortens the data by at least 2 |
| Framing.SkipRecordAsWrittenAgrees | libs9s/s9srpcclient_p.cpp:507-524 | Whenever the code as written skips or declines, its new data is SkipFirstRecord's |
| Framing.SkipRecordAsWrittenUndefined | libs9s/s9srpcclient_p.cpp:511-516 | The code as written is undefined exactly when the blank line ends the data and the byte after the data is missing or is a separator |
| Framing.SkipRecordReadsStaleSeparator | libs9s/s9srpcclient_p.cpp:511-523 | Two separator-terminated records make the second skipRecord read a stale separator left by the first, while SkipFirstRecord empties the data |
| Cookies.CookieAtShape | libs9s/s9srpcclient_p.cpp:308 | A cookie name holds no '=' and a cookie value holds none of ',', ';', CR and LF |
| Cookies.FindCookieSound | libs9s/s9srpcclient_p.cpp:315 | The regular expression's search returns a match that starts where it is found |
| Cookies.FindCookieLeftmost | libs9s/s9srpcclient_p.cpp:315 | The search finds the leftmost match at or after its start |
| Cookies.CookieMatchesOrdered | libs9s/s9srpcclient_p.cpp:315-318 | The loop's matches lie inside the data, with strictly increasing starts |
| Cookies.CookieMatchesAreMatches | libs9s/s9srpcclient_p.cpp:315-318 | Every match the loop visits is a Set-Cookie match at its own start |
| Cookies.CookieMatchesComplete | libs9s/s9srpcclient_p.cpp:315-318 | Every Set-Cookie match at or after the start is one of the loop's matches |
| Cookies.CookieMatchesVisitEvery | libs9s/s9srpcclient_p.cpp:315-318 | parseHeaders visits every Set-Cookie match in the data |
| Cookies.UpsertKeys | libs9s/s9srpcclient_p.cpp:317 | After the upserts the cookie names are the old ones plus every matched name |
| Cookies.UpsertKeepsUnnamed | libs9s/s9srpcclient_p.cpp:317 | A cookie that no match names keeps its old value |
| Cookies.UpsertLastWins | libs9s/s9srpcclient_p.cpp:317 | A name takes the value of its last match |
| Cookies.HarvestKeepsUnmentioned | libs9s/s9srpcclient_p.cpp:315-319 | A cookie not named anywhere in the reply keeps its value across parseHeaders |
| Cookies.HarvestLastWins | libs9s/s9srpcclient_p.cpp:315-319 | A cookie takes the value of its last Set-Cookie line in the reply |
| Cookies.ServerAt | libs9s/s9srpcclient_p.cpp:322 | A match at p exists exactly when "Server: " starts at p. Its value is the bytes right after the prefix, holds no CR or LF, and ends at a CR, an LF or the end of the data |
| Cookies.FindServer | libs9s/s9srpcclient_p.cpp:324-325 | The Server value found holds no CR or LF |
| Cookies.FindServerSound | libs9s/s9srpcclient_p.cpp:322-325 | A value the search returns is the match at some position at or after the start |
| Cookies.FindServerLeftmost | libs9s/s9srpcclient_p.cpp:322-325 | The search returns the match at the leftmost position that has one |
| Cookies.FindServerFinds | libs9s/s9srpcclient_p.cpp:324-325 | If a Server line exists, the search finds one |
| Cookies.SetCookieLineParses | libs9s/s9srpcclient_p.cpp:308-317 | The line "Set-Cookie: name=value" is read back as that name and that value |
| Cookies.ServerLineParses | libs9s/s9srpcclient_p.cpp:322-325 | A reply starting "Server: value" reports that value |
| Cookies.LeastExists | libs9s/s9srpcclient_p.cpp:340 | A non-empty set of names has a least name under std::string order |
| Cookies.LeastUnique | libs9s/s9srpcclient_p.cpp:340 | The least name is unique |
| Cookies.SortedKeys | libs9s/s9srpcclient_p.cpp:340 | The iteration order lists only keys, as many as there are, starting with the least |
| Cookies.SortedKeysAscending | libs9s/s9srpcclient_p.cpp:340 | The iteration order lists every key, in strictly ascending order |
| Cookies.CookiePair | libs9s/s9srpcclient_p.cpp:345-346 | A pair holds '='. Without NUL bytes it is name "=" value |
| Cookies.JoinPairs | libs9s/s9srpcclient_p.cpp:340-349 | The joined pairs are empty exactly when no key is listed |
| Cookies.JoinPairsSnoc | libs9s/s9srpcclient_p.cpp:342-348 | Appending a key adds "; " and its pair, with no "; " before the first pair |
| Cookies.CookieHeaderStep | libs9s/s9srpcclient_p.cpp:342-348 | One turn of the loop: the header is not bare "Cookie: " exactly when a pair was written, and the turn appends the next key's pair |
| Cookies.CookieHeader | libs9s/s9srpcclient_p.cpp:332-353 | Without cookies the header is empty. Otherwise it starts "Cookie: " and ends with CRLF |
| Cookies.SingleCookieHeader | libs9s/s9srpcclient_p.cpp:332-353 | One cookie gives "Cookie: name=value\r\n" |
| Cookies.TwoCookieHeader | libs9s/s9srpcclient_p.cpp:332-353 | Two cookies are written smaller name first, separated by "; " |
| Objects.PropertyValueOf | libs9s/s9sobject.cpp:105-113 | The stored value is a Bool exactly when the text looks boolean, and then it is true exactly when the trimmed text, lower-cased, is a true word. It is an Int exactly when the text looks integer and not boolean, and then it is atoi of the text. Otherwise it is the String itself |
| Objects.PropertyValueOfDecimal | libs9s/s9sobject.cpp:105-113 | The text of an int is stored as that Int |
| Objects.PropertyValueOfBoolText | libs9s/s9sobject.cpp:105-107 | "true" and "false" are stored as the Bool they name |
| Objects.Object.constructor | libs9s/s9sobject.cpp:22-25 | A new object holds only class_name = "S9sObject" |
| Objects.Object.Copy | libs9s/s9sobject.cpp:27-31 | The copy holds the same properties |
| Objects.Object.FromMap | libs9s/s9sobject.cpp:33-39 | The map is kept, and class_name is added only when missing |
| Objects.Object.AssignMap | libs9s/s9sobject.cpp:45-52 | Assigning a map replaces every property, with no class_name added |
| Objects.Object.SetProperties | libs9s/s9sobject.cpp:139-144 | The old properties are dropped and the given ones taken |
| Objects.Object.ToVariantMap | libs9s/s9sobject.cpp:146-150 | The map has exactly the names hasProperty reports, with property()'s values |
| Objects.Object.HasProperty | libs9s/s9sobject.cpp:64-69 | True exactly when the name is set |
| Objects.Object.Property | libs9s/s9sobject.cpp:75-83 | A set name gives its value and an unset one gives Invalid |
| Objects.Object.SetStringProperty | libs9s/s9sobject.cpp:94-114 | The empty string erases the name. Otherwise only that name changes, to the Bool, Int or String the text denotes |
| Objects.Object.SetBoolProperty | libs9s/s9sobject.cpp:116-122 | Only the name changes, to the Bool |
| Objects.Object.SetIntProperty | libs9s/s9sobject.cpp:124-130 | Only the name changes, to the Int |
| Objects.Object.Name | libs9s/s9sobject.cpp:152-156 | "" without an alias, and the alias when it is a string |
| Objects.Object.NameColumns | libs9s/s9sobject.cpp:158-174 | Unchanged when columns <= 0 or the name fits. Otherwise the first `columns` bytes followed by the UTF-8 ellipsis |
| Objects.Object.AclString | libs9s/s9sobject.cpp:177-181 | "" without an acl, and the acl when it is a string |
| Objects.Object.Id | libs9s/s9sobject.cpp:195-199 | "" without an id. An Int id is text that atoi reads back as the id. A string id is itself |
| Objects.Object.CdtPath | libs9s/s9sobject.cpp:201-205 | "" without a cdt_path, and the path when it is a string |
| Objects.Object.OwnerName | libs9s/s9sobject.cpp:210-214 | "" without an owner_user_name, and that name when it is a string |
| Objects.Object.GroupOwnerName | libs9s/s9sobject.cpp:219-223 | "" without an owner_group_name, and that name when it is a string |
| Objects.SetIntegerTextReadsBack | libs9s/s9sobject.cpp:105-110 | Setting a property to an int's text makes property() give that Int, and every other property is unchanged |
| RpcClient.ShiftDown | libs9s/s9srpcclient_p.cpp:523 | memmove: the moved bytes land at the front and the bytes after them keep their values |
| RpcClient.RpcClientPrivate.constructor | libs9s/s9srpcclient_p.cpp:21-36 | A new client is referenced once and has no buffer, no data, no cookies and no Server header |
| RpcClient.RpcClientPrivate.Ref | libs9s/s9srpcclient_p.cpp:44-48 | The counter grows by one |
| RpcClient.RpcClientPrivate.UnRef | libs9s/s9srpcclient_p.cpp:50-54 | The counter drops by one and the new count is returned |
| RpcClient.RpcClientPrivate.EnsureHasBuffer | libs9s/s9srpcclient_p.cpp:56-73 | The capacity becomes the larger of the old one and the request. Every stored byte is kept, and the buffer never shrinks |
| RpcClient.RpcClientPrivate.ClearBuffer | libs9s/s9srpcclient_p.cpp:75-84 | No buffer, no capacity and no data remain |
| RpcClient.RpcClientPrivate.SetBuffer | libs9s/s9srpcclient_p.cpp:368-379 | The data is the content, and the capacity is content + additional + 1, so a byte past the data is reserved |
| RpcClient.RpcClientPrivate.HasCompleteJSon | libs9s/s9srpcclient_p.cpp:437-458 | False without a buffer. True exactly when the data holds a blank line or a separator, a leading one included, which is exactly when getCompleteJSon returns fewer bytes than the data holds |
| RpcClient.RpcClientPrivate.GetCompleteJSon | libs9s/s9srpcclient_p.cpp:467-491 | The loop returns CompleteRecord of the data |
| RpcClient.RpcClientPrivate.SkipRecord | libs9s/s9srpcclient_p.cpp:500-526 | True exactly when there is a blank line, and the data becomes SkipFirstRecord's rest. Without one nothing changes. Bytes past the data keep their values |
| RpcClient.RpcClientPrivate.ParseHeaders | libs9s/s9srpcclient_p.cpp:300-326 | Without a buffer or below 12 bytes nothing changes. Otherwise every Set-Cookie match is upserted in order, and the first Server value, if any, is recorded |
| RpcClient.RpcClientPrivate.CookieHeaders | libs9s/s9srpcclient_p.cpp:331-353 | The result is CookieHeader of the cookies: pairs in ascending name order, joined by "; " |
| RpcClient.RpcClientPrivate.ServerVersionString | libs9s/s9srpcclient_p.cpp:358-362 | The Server header last recorded |

## Left out

- RpcClient.RpcClientPrivate.HasCompleteJSon: with memchr's arguments in order, a separator at the start of the data counts as a terminator, so a separator followed by an unfinished record is reported complete (Framing.LeadingSeparatorAlone); the model keeps that behaviour rather than inventing a stricter check.
- Sockets and TLS are not modelled, because they are I/O: `connect`, `close`, `write` and `read` (libs9s/s9srpcclient_p.cpp:89-294), and the destructor's teardown. `close()` does not reset the socket descriptor (:243-244), so a second call would close it again; this is not modelled either.
- `printBuffer` (libs9s/s9srpcclient_p.cpp:386-435) only prints to standard output.
- Floating point is not modelled exactly: a Double payload is a `real`. `toDouble` with `strtod` and `errno` (libs9s/s9svariant.cpp:443-485) and the `%g` formatting are left out.
- Variants.ToString: the Double case (`%g`) is not stated; the model gives "" there.
- Variants.Equals and Variants.Less compare numbers of mixed tags through exact real values; IEEE rounding of large integers is not modelled.
- Variants.DoubleToInt: an out-of-range double, where the C++ cast is undefined, gives INT_MIN, and Variants.DoubleToULongLong gives 0; NaN and infinities do not exist in the model.
- Variants.VariantObject.Index: the reference it returns is a value in the model, so writes through it are not captured. A call on a non-Map, non-Invalid variant fails the source's `assert(false)`, and here it is excluded by a precondition.
- `aclShortString` (libs9s/s9sobject.cpp:183-193) depends on `S9sString::replace`, which is not part of this model.
- `S9sString::trim`, `looksBoolean`, `looksInteger`, `toInt` and `toBoolean` of s9sstring.cpp are not part of this model. They are given stated definitions: C `isspace` trimming at both ends, the same words that `S9sVariant::toBoolean` uses, and an optional sign followed by decimal digits.
- `S9sRegExp` is not part of this model. Its searches are stated as the leftmost match of the two patterns, with case ignored for Set-Cookie.
- s9svariant.h and s9snode.h are not part of this model. `isNumber` is taken to mean Int, Ulonglong or Double. A Node is its property map. Map iteration follows ascending `std::string` order, as `std::map` does.
- The reference counter is an unbounded `int`; `int` overflow is not modelled.
- RpcClient.RpcClientPrivate.SetBuffer: requires additionalSize >= -1. A smaller value makes the source's memcpy overrun the allocation, which is undefined behaviour and is not represented.
- A failing `malloc`/`realloc` is not modelled; allocation is assumed to succeed.
- Strings are byte sequences. C functions stop at the first NUL byte; the model follows this where the source converts with `c_str()` (atoi, `%s`), and treats NUL as an ordinary byte elsewhere.

## Findings

| source | as written | input that shows it | evidently intended | confidence | as-written member | corrected member |
|---|---|---|---|---|---|---|
| libs9s/s9srpcclient_p.cpp:454 | `memchr(m_buffer, m_dataSize, '\036')` passes the length as the byte to look for and 30 as the length | data "{}" + separator (3 bytes) in a 30-byte allocation whose other 27 bytes are not byte 3 (spaces, say) is reported incomplete. 32 bytes of unfinished JSON with a space in the first 30 are reported complete | `memchr(m_buffer, '\036', m_dataSize)`: a complete record exactly when the data holds a blank line or a separator | high (not executed) | Framing.HasCompleteJSonAsWritten, Framing.HasCompleteJSonMissesSeparator, Framing.HasCompleteJSonSpaceFalsePositive | RpcClient.RpcClientPrivate.HasCompleteJSon |
| libs9s/s9srpcclient_p.cpp:512 | `*nextRecord` is read even when the blank line ends the data, so a stale separator past the data is skipped and `remaining` wraps as size_t | data "A\n\n" + separator + "B\n\n" whose second separator has not arrived: the second skipRecord reads the separator that the first memmove left behind | look at the separator only when `nextRecord` is inside the data | high (not executed) | Framing.SkipRecordAsWritten, Framing.SkipRecordReadsStaleSeparator | RpcClient.RpcClientPrivate.SkipRecord, Framing.SkipFirstRecord |
