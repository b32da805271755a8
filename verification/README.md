# gPodder string and number helpers, in Dafny

A model of the self-contained routines in gPodder's `src/gpodder/util.py`, the
helper module of the podcast aggregator, with proofs of what their docstrings
and code promise:

- `normalize_feed_url` (`FeedUrl`): accepts `http://` and `ftp://` URLs,
  rewrites the `feed://` pseudo scheme to `http://`, rejects everything else.
- `username_password_from_url` (`Credentials`): splits the user information of
  a network location (`user:password@host`, section 3.2.1 of RFC 3986) and
  percent-decodes both parts as Python 2's `urllib.unquote` does.
- `format_filesize` (`FileSize`): the "(unknown)" sentinel, a requested unit,
  or the automatic unit chosen by the loop over KB, MB and GB.
- `remove_html_tags` (`HtmlTags`): the substitution of `<[^>]*>` by nothing,
  as a left-to-right scan proved equal to a recursive definition.
- `torrent_filename` (`Torrent`): the parse of the first line of a
  single-file BitTorrent descriptor, where the file name is the bencoded
  string after `4:name` (the "bencoding" section of BitTorrent BEP 3).
- `file_type_by_extension` (`FileType`): the table lookup after one optional
  leading dot.
- `get_first_line` (`FirstLine`): strip, cut at the first line break, strip
  again.
- `object_string_formatter` (`Formatter`): replacement of `{key.attr}`
  placeholders by attribute values of the objects given as keyword arguments.

`Text` holds the parts of Python 2's `str` the routines use (`strip`, `find`,
`split(c, 1)`, `replace`), each defined once and shared; it also defines
`Join`, which no routine calls: the lemmas about `object_string_formatter`
use it to build templates from the pieces between placeholders. `Options`
holds the `Option` datatype that stands for Python's `None`.

Routines that loop over a local variable in the source are methods whose
loops carry invariants and whose postconditions tie the result to a function:
`FileSize.FormatFilesize` (the unit loop), `HtmlTags.RemoveTags` (the scan
for tags) and `Formatter.ObjectStringFormatter` (the nested loops over
objects and attribute names). The others are functions.

Two docstrings promise more than their code does. The docstring of
`username_password_from_url` (`src/gpodder/util.py:86-89`) promises a tuple:
the credentials, or `(None, None)` when the URL holds none. But when the text
before the `@` has no `:`, the unpacking at line 96 raises `ValueError`, and
the function has no handler; the model returns `UnpackError` there. The
docstring of `torrent_filename` (lines 214-215) promises `None` when no file
name is found, but when no `:` follows the name key the code reads the text
from the field to the line's last character as the length and, when that is
a number, returns the start of the header (see "## Findings").

## Model

| member | source | states |
|---|---|---|
| FeedUrl.NormalizeFeedUrl | src/gpodder/util.py:73-82 | `None` exactly for input shorter than 8 characters or without an `http://`, `ftp://` or `feed://` prefix; http and ftp URLs come back unchanged; `feed://X` becomes `http://X`; every result is an http or ftp URL as long as the input |
| FeedUrl.SchemesDisjoint | src/gpodder/util.py:76-80 | a URL with the `feed://` prefix has neither of the other two, so the order of the prefix tests does not matter |
| FeedUrl.NormalizeIdempotent | src/gpodder/util.py:73-82 | a normalised URL is a fixed point: normalising it again gives it back |
| FeedUrl.FeedAndHttpAgree | src/gpodder/util.py:76-80 | for non-empty X, `feed://X` and `http://X` both normalise to `http://X` |
| Credentials.Unquote | src/gpodder/util.py:97-98 | decoding never lengthens the text, and text without `%` is unchanged |
| Credentials.UnquoteQuote | src/gpodder/util.py:97-98 | decoding undoes percent-encoding, for every string |
| Credentials.UsernamePassword | src/gpodder/util.py:91-100 | no credentials exactly when the network location has no `@`; the unpacking error exactly when the text before the first `@` has no `:` |
| Credentials.UsernamePasswordSplit | src/gpodder/util.py:95-98 | for `u:p@h` with no `:` or `@` in `u` and no `@` in `p`, the user name is the decoded `u` and the password the decoded `p` |
| Credentials.UsernamePasswordRoundTrip | src/gpodder/util.py:95-98 | any user name and password, percent-encoded into `user:password@host`, are read back exactly |
| Text.Strip | src/gpodder/util.py:319 | the result stands in the input right after its leading whitespace, has no whitespace at either end, only whitespace follows it, and it is empty exactly for all-whitespace input |
| Text.StripStripped | src/gpodder/util.py:319 | stripping a string without surrounding whitespace changes nothing |
| Text.FindFrom | src/gpodder/util.py:222-225 | an index found lies at or after the start, with room for the pattern before the end |
| Text.FindFromFirst | src/gpodder/util.py:222-223 | the search finds the first occurrence at or after the start, and fails only when there is none |
| Text.FindFirst | src/gpodder/util.py:222-223 | conversely, the first occurrence at or after the start is what the search returns |
| Text.FindCharFrom | src/gpodder/util.py:225 | a found index holds the character and no earlier index from the start does; `None` exactly when the character does not occur from the start on |
| Text.SplitOnce | src/gpodder/util.py:96 | one part exactly when the separator does not occur; otherwise the input is left part, separator, right part, with no separator in the left part |
| Text.SplitOnceAt | src/gpodder/util.py:96 | a split whose left part holds no separator is the one made |
| Text.Replace | src/gpodder/util.py:359 | replacing a pattern by itself changes nothing |
| Text.ReplaceAbsent | src/gpodder/util.py:359 | replacing a pattern that does not occur changes nothing |
| FileSize.UnitNamed | src/gpodder/util.py:147-152 | a unit exactly when the requested name is that unit's key in the `methods` table; `None` for any other name and for no name |
| FileSize.AutoUnit | src/gpodder/util.py:162-166 | the unit is B or one whose factor the size reaches, and no unit of higher rank than it is reached |
| FileSize.AutoUnitMonotone | src/gpodder/util.py:162-166 | a larger size never gets a smaller unit |
| FileSize.AutoAmountBounds | src/gpodder/util.py:162-168 | the scaled amount is at least 1 from 1 KB on, and below 1024 unless the unit is GB |
| FileSize.FormatFilesize | src/gpodder/util.py:147-168 | "(unknown)" exactly for a non-number, a negative size, or a size from 2^1024 - 2^970 on, which `float()` cannot convert; otherwise the size divided by the unit's factor, in the requested unit when the table has it and in the automatic unit otherwise |
| HtmlTags.StripTags | src/gpodder/util.py:195-196 | the substitution never lengthens the text |
| HtmlTags.StripTagsKeeps | src/gpodder/util.py:195-196 | the substitution brings in no character |
| HtmlTags.StripTagsLeavesNoTag | src/gpodder/util.py:195-196 | in the result no `<` is followed anywhere later by a `>` |
| HtmlTags.StripTagsNoTag | src/gpodder/util.py:195-196 | text holding no tag passes through unchanged |
| HtmlTags.StripTagsShortens | src/gpodder/util.py:195-196 | text holding a tag gets strictly shorter |
| HtmlTags.StripTagsFixedPoint | src/gpodder/util.py:195-196 | the text is unchanged exactly when it holds no tag |
| HtmlTags.StripTagsIdempotent | src/gpodder/util.py:195-196 | stripping twice is stripping once |
| HtmlTags.StripTagsNoOpen | src/gpodder/util.py:195-196 | text without `<` passes through unchanged |
| HtmlTags.StripTagsAt | src/gpodder/util.py:195-196 | at any index, a `<` with a `>` after it starts a removed span ending at the first such `>`; any other character is kept |
| HtmlTags.ScanStep | src/gpodder/util.py:195-196 | the scan's invariant (text kept so far, then the substitution of the rest, is the substitution of the whole) carries over one step |
| HtmlTags.RemoveTags | src/gpodder/util.py:195-196 | the scan computes exactly the substitution, and its result holds no tag |
| Torrent.DecimalValue | src/gpodder/util.py:226 | a numeral of n digits is worth less than 10^n, and at least 10^(n-1) when it has no leading zero |
| Torrent.DecimalLength | src/gpodder/util.py:226 | `str(n)` has exactly as many digits as `n` needs: `n` is below 10 to its length, and a positive `n` is at least 10 to one less |
| Torrent.DecimalRoundTrip | src/gpodder/util.py:226 | reading back the decimal numeral of a number gives the number |
| Torrent.ReadInt | src/gpodder/util.py:226 | a number is read only from non-empty text |
| Torrent.ReadIntChars | src/gpodder/util.py:226 | a number is read only from text holding a digit and nothing but digits, whitespace and `+` |
| Torrent.ReadIntDigits | src/gpodder/util.py:226 | `int()` of a non-empty run of ASCII digits is its decimal value |
| Torrent.ReadIntLead | src/gpodder/util.py:226 | whitespace before the text is skipped |
| Torrent.ReadIntTrail | src/gpodder/util.py:226 | whitespace after the text is skipped |
| Torrent.ReadIntSigned | src/gpodder/util.py:226 | a numeral after `+` and whitespace, with whitespace around it, reads as its value |
| Torrent.LengthFieldAfter | src/gpodder/util.py:223-226 | a field found ends at the first `:` after the key, so no `:` stands between the key and the name's start; `None` when no `:` follows the key |
| Torrent.ParseNameField | src/gpodder/util.py:222-226 | a parsed field says the name starts right after a `:` inside the header |
| Torrent.FieldBefore | src/gpodder/util.py:225-227 | a readable field puts the name's start right after its colon |
| Torrent.NameFrom | src/gpodder/util.py:227 | the name is never longer than declared, stands in the header where the field says, and has the declared length when the header is long enough |
| Torrent.TorrentFilename | src/gpodder/util.py:221-230 | `None` exactly without `6:pieces` or without a readable name field; otherwise the declared name, never longer than the declared length |
| Torrent.TorrentFilenameNeedsKeys | src/gpodder/util.py:222-223 | a name is found only in a header holding both `6:pieces` and `4:name` |
| Torrent.NoColonNoName | src/gpodder/util.py:225-230 | without a `:` after the first `4:name` there is no name |
| Torrent.FirstKey | src/gpodder/util.py:223 | the first `4:name` of `pre 4:name ...` stands right after `pre` when `pre` holds none |
| Torrent.ParseNameFieldAt | src/gpodder/util.py:223-226 | after the first `4:name`, a numeral and a colon are read as the length field |
| Torrent.TorrentFilenameAt | src/gpodder/util.py:227-228 | a name as long as declared, where the field says it starts, is the result |
| Torrent.NameAfterKey | src/gpodder/util.py:222-228 | a numeral, a colon and that many characters after the first `4:name` give those characters |
| Torrent.TorrentFilenameRoundTrip | src/gpodder/util.py:221-228 | a name written as a bencoded string after the first `4:name` of a header with `6:pieces` is read back exactly |
| Torrent.ParseNameFieldAsWritten | src/gpodder/util.py:223-226 | the field parse as written puts the name's start inside the header |
| Torrent.TorrentFilenameAsWritten | src/gpodder/util.py:221-230 | as written: `None` exactly without `6:pieces` or without a readable field, where a missing colon still yields a field |
| Torrent.AsWrittenWithColon | src/gpodder/util.py:225-227 | whenever a `:` follows the key, the code as written and the corrected parse agree |
| Torrent.ColonMissingReadsHeaderStart | src/gpodder/util.py:225-227 | on `6:pieces4:name3` and a line break, the code as written returns `6:p`; the corrected parse returns `None` |
| FileType.Undotted | src/gpodder/util.py:260-261 | exactly one leading dot is removed when there is one; otherwise the extension is kept |
| FileType.FileTypeByExtension | src/gpodder/util.py:251-267 | `None` for the empty string; a kind exactly when the extension without its leading dot is in that kind's list, so at most one kind matches and the table's order does not matter |
| FileType.FileTypeName | src/gpodder/util.py:244-267 | the returned string is one of "audio", "video" and "torrent", and it is a kind's name exactly when the undotted extension is in that kind's list |
| FileType.LeadingDotIgnored | src/gpodder/util.py:260-261 | one leading dot makes no difference |
| FileType.CaseSensitive | src/gpodder/util.py:263-265 | the comparison is exact: `mp3` is audio, `.MP3` and `Torrent` are unknown |
| FirstLine.FirstSegment | src/gpodder/util.py:319 | the text before the first line break: a prefix without line break, followed by one unless it is the whole text |
| FirstLine.GetFirstLine | src/gpodder/util.py:314-319 | the result stands in the input right after its leading whitespace, has no line break and no whitespace at either end, only whitespace follows it up to the next line break, and it is empty exactly when the input is all whitespace |
| FirstLine.GetFirstLineIdempotent | src/gpodder/util.py:314-319 | taking the first line of a first line changes nothing |
| Formatter.Placeholders | src/gpodder/util.py:353 | every attribute name found is non-empty, holds no `}`, and its placeholder `{key.name}` occurs in the template |
| Formatter.PlaceholdersNone | src/gpodder/util.py:353 | no name is found exactly when no placeholder of the key with a non-empty name free of `}` occurs in the template |
| Formatter.ApplyAttrs | src/gpodder/util.py:354-361 | names the object lacks, or holds as non-strings, change nothing |
| Formatter.Format | src/gpodder/util.py:351-363 | a template in which no key has a placeholder comes back unchanged |
| Formatter.ObjectStringFormatter | src/gpodder/util.py:351-363 | the nested loops compute the fold `Format` over the objects and, for each, over the names found in the original template |
| Formatter.FormatWithoutStringAttributes | src/gpodder/util.py:352-361 | an object none of whose placeholders names a string attribute leaves the template unchanged |
| Formatter.FormatSearchesOriginal | src/gpodder/util.py:353 | an object whose key has no placeholder in the original template changes nothing, whatever earlier replacements wrote |
| Formatter.PlaceholdersSkip | src/gpodder/util.py:353 | text holding no `{key.` contributes no name when what follows is empty or starts with `{` |
| Formatter.PlaceholdersAt | src/gpodder/util.py:353 | a placeholder at the front is found and the search goes on after it |
| Formatter.PlaceholdersJoin | src/gpodder/util.py:353 | pieces holding no `{key.`, joined by one placeholder, yield its name once per gap |
| Formatter.ReplaceSkip | src/gpodder/util.py:359 | replacing a placeholder of the key skips text holding no `{key.` when what follows is empty or starts with `{` |
| Formatter.ReplaceJoin | src/gpodder/util.py:359 | replacing a placeholder in pieces holding no `{key.`, joined by it, puts the replacement in every gap |
| Formatter.ApplyAttrsCopies | src/gpodder/util.py:354-359 | over repeated finds of one name, in pieces holding no `{key.`: the first replaces every occurrence, and the later ones change nothing when the value did not bring the placeholder back |
| Formatter.FormatReplacesEveryOccurrence | src/gpodder/util.py:351-363 | for one object with a string attribute, every occurrence of its placeholder is replaced by the value, when the text between occurrences holds no `{key.` and, for two or more occurrences, the result holds no occurrence of the placeholder |
| Formatter.UnterminatedSwallowsNext | src/gpodder/util.py:353-359 | in `{k.zz{k.a}` the name found is `zz{k.a`, so `{k.a}` is not replaced although `k.a` is the string `A` |
| Formatter.SubstitutedTextNotSearched | src/gpodder/util.py:352-359 | `{a.x}` with `a.x` = `{b.y}` and `b.y` = `Z` gives `{b.y}`: text written by a replacement is not expanded |

## Left out

- File-system access in `torrent_filename` (the existence check and `readline`): the parse takes the header line as its argument.
- Torrent.ReadInt: a length field with a minus sign is read as unreadable, whereas `int()` accepts it; the source then returns the empty name, or, for values below -(colon+1), a slice that counts from the end of the line.
- Torrent.ReadInt: a numeral too large for a C `long` is handed by `int()` to Python's long-integer parser, whose treatment of whitespace after the sign and of a trailing `L` is not modelled; such a field is read by the same rules as a small one.
- Formatter.FormatReplacesEveryOccurrence: proved only for templates whose text between the occurrences holds no `{key.`, and, for two or more occurrences, a value that does not bring the placeholder back. Without the first premise an unterminated placeholder swallows the next one (Formatter.UnterminatedSwallowsNext); without the second each repeated find of the name replaces again, inside the text written before.
- FileSize.FormatFilesize: the size is a whole number of bytes or a value `float()` rejects; fractional sizes, the rounding of `float()` below its overflow bound, the `%.2f` rendering and the gettext lookup of "(unknown)" are not modelled, so the result is the exact quotient and the unit.
- Entity decoding in `remove_html_tags` (the two loops over `htmlentitydefs` tables): the tables are not part of this model, and the outcome of the chained replacements depends on dictionary order.
- `urlparse` in `username_password_from_url`: the network location is the input.
- Python `None` as the argument of `normalize_feed_url` (it returns `None`, as for the empty string): the argument is a string.
- Reflection in `object_string_formatter`: an object is a map from attribute names to values, where a value is a string or something `str.replace` refuses; keyword names are Python identifiers, so the regular expression built from them has no special characters; the keyword arguments are a sequence in the order the dictionary yields them.
- Unicode strings: whitespace is the six ASCII characters Python 2's `str.strip` removes, and characters are not decoded or case-folded.
- The `log` calls.
- The rest of `util.py` (`make_directory`, `directory_is_writable`, `calculate_size`, `delete_file`, `file_extension_from_url`, `get_tree_icon`, `updated_parsed_to_rfc2822`) is not part of this model: file-system and GUI calls, locale-dependent date formatting, and a composition of library calls without logic of its own.

## Findings

| source | as written | input that shows it | evidently intended | confidence | as-written member | corrected member |
|---|---|---|---|---|---|---|
| src/gpodder/util.py:225-227 | when no `:` follows `4:name`, `find` returns -1, the field is read from `header[pos:-1]` and the name is cut from index 0 | the line `6:pieces4:name3` followed by a line break yields `6:p` | no file name (`None`), as for every other unreadable field | high; not executed | Torrent.TorrentFilenameAsWritten (shown by Torrent.ColonMissingReadsHeaderStart) | Torrent.TorrentFilename (Torrent.NoColonNoName, Torrent.TorrentFilenameRoundTrip) |
