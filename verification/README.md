# finishline: a verified model of the report generator's core

Finish Line is a command-line tool that writes an end-of-sprint report
from an issue tracker (JIRA). It asks the tracker for the issues of one
project resolved since a date, groups them by the epic each belongs to,
looks every epic up once to find its first status-update comment, in
the order the tracker returns the comments, and
renders a template with the result. This project models that logic of
`finishline.py` in Dafny and proves what it promises.

Modules, one per concern of the script:

- `Wrappers`: `Option` and `Result`.
- `PyStrings`: the Python string operations the script relies on:
  `lstrip`, `strip` (with Python 2.7's Unicode whitespace table),
  `split(sep)[0]`, `startswith` (Dafny's prefix `<=`) and substring search.
- `StatusUpdates`: `extract_status_update`. The four sentinels are tried
  in order against each comment, in the order given, and the first match
  is cleaned. The method with the nested loops and the early return is
  proved equal to a recursive reference definition. Lemmas about that
  definition give the first-match and cleanliness properties.
- `Tracker`: the tracker client as a class whose `GetIssue` looks a key up
  in a fixed map of records and appends the key to a call log.
- `Collation`: `get_epic_details` and `collate_issues`. The loop that fills
  `epics` and `by_epic` is proved equal to a reference outcome. That
  outcome is stated with set comprehensions over the input. The log
  shows every distinct truthy epic key asked for once, in first-seen
  order, and no falsy key asked for at all.
- `Filters`: the `slugify` and `replace` template filters.
- `Query`: the JQL string `pull_issues` builds, with a parser that reads
  the project and the date back for project keys without spaces. On
  arbitrary strings the query is ambiguous: a project value that contains
  the text between the project and the date gives the same query as a
  different project and date.
- `Arguments`: the required-option check of `parse_arguments`.
- `Rendering`: the context `render` builds: a copy of the data, the run
  date under `today`, then the command-line arguments on top.

Behaviours of this version of the code that the model keeps:

- Comments are scanned in the order the tracker returns them.
- The kept status text is everything before the first `"\n\n"`, left
  and right stripped.
- Mentions such as `[~user]` are left as they are.
- Issues without an epic (`None` or `""`) are grouped under that key.
- There are no objectives, counters, completion percentages or hide
  lists.

## Model

| member | source | states |
|---|---|---|
| PyStrings.LStrip | finishline.py:104 | `lstrip()`: the result is a suffix of the input, every character removed is whitespace, and the result does not start with whitespace |
| PyStrings.Strip | finishline.py:105 | `strip()`: the result is a slice of the input, everything dropped on either side is whitespace, and neither end of the result is whitespace |
| PyStrings.SplitHead | finishline.py:105 | `split('\n\n')[0]`: a prefix of the input that holds no separator and is followed by the first separator, or is the whole input when there is none |
| StatusUpdates.SentinelFrom | finishline.py:93-102 | the index returned is of a sentinel the body starts with, and no earlier sentinel in the list matches; `None` exactly when none matches |
| StatusUpdates.Clean | finishline.py:104-105 | the cleaned text has no whitespace at either end, contains no `\n\n`, and is a slice of the body after the sentinel |
| StatusUpdates.ExtractStatusUpdate | finishline.py:92-107 | the nested loops with the early return compute the first status update of the comments (`FirstStatusUpdate`) |
| StatusUpdates.NoStatusUpdateIff | finishline.py:99-107 | there is no status update exactly when no comment body starts with any sentinel |
| StatusUpdates.StatusUpdateIsFirstMatch | finishline.py:99-107 | the update is the first comment, in sequence order, that starts with a sentinel, cleaned after the first sentinel in list order that it matches |
| StatusUpdates.StatusUpdateIsClean | finishline.py:104-107 | the update found is one of the given comments and its text is stripped and contains no `\n\n` |
| StatusUpdates.ColonIsCut | finishline.py:93-105 | every body starting `h1. Status Update:` matches the first sentinel, not `h1. Status Update`, so its update is the body cleaned after the colon and the kept text lies after the colon |
| Tracker.Client.GetIssue | finishline.py:117 | one tracker request: the key is appended to the log, and the record is returned or a not-found error is |
| Collation.GetEpicDetails | finishline.py:114-122 | a falsy key gives `None` without a request; any other key makes exactly one request and fails exactly when the tracker lacks it; on success the result holds the record and its status update |
| Collation.CollateIssues | finishline.py:125-138 | the loop's result is the reference outcome `CollateOutcome`; the log grows by the keys fetched in first-seen order, up to and including the one that failed |
| Collation.FetchedOncePerKey | finishline.py:132-133 | every distinct truthy epic key of the input is requested exactly once however often it repeats, and `None` or `""` never is |
| Collation.CollatedProperties | finishline.py:126-138 | `epics` and `by_epic` both have the input's epic values as keys; every issue is in its own value's set and no set holds anything else; a falsy value maps to `None`, any other to its enriched record |
| Collation.CollateFailure | finishline.py:114-117 | a failed collation names a truthy epic key of the input that the tracker does not hold |
| Collation.GroupsAfterMembers | finishline.py:127-136 | after any number of issues, the set under a key holds exactly the issues seen so far with that epic value |
| Collation.GroupsAfterKeys | finishline.py:128-136 | after any number of issues, `by_epic` and `epics` have the same keys: the epic values seen so far |
| Filters.LowerChar | finishline.py:22 | `lower()` on one character maps an ASCII capital to its small letter and leaves any other character alone |
| Filters.Lower | finishline.py:22 | `lower()`: same length, no ASCII capital left, every ASCII capital replaced by its small letter (code point plus 32), every other character kept |
| Filters.ReplaceChar | finishline.py:22 | `replace(' ', '-')` for one character: same length, each occurrence of the old character becomes the new one and every other character is kept, so none of the old remains |
| Filters.Slugify | finishline.py:22 | the slug is as long as the input, contains no space and no ASCII capital, and is the input lower-cased with spaces turned into hyphens |
| Filters.SlugifyIdempotent | finishline.py:22 | slugifying a slug changes nothing |
| Filters.SlugifyFixedPoints | finishline.py:22 | a string is its own slug exactly when it has no spaces and no ASCII capitals |
| Filters.Repeat | finishline.py:24 | `unit * n` has length `n * len(unit)` and repeats `unit` periodically |
| Filters.Replace | finishline.py:24 | the mask has length `len(string) * len(char)` and is `char` repeated |
| Query.Jql | finishline.py:80-86 | `tmpl % (project, since)`: the query starts with `project = `, holds the project right after it, then ` AND resolution is not EMPTY AND resolutiondate >= `, and ends with the date followed by ` AND status != Dropped`; its length is that of the pieces together |
| Query.JqlAmbiguous | finishline.py:80-86 | the formatting is not injective: moving the text ` AND resolution is not EMPTY AND resolutiondate >= ` and what follows it from the project into the date leaves the query unchanged |
| Query.JqlRoundTrip | finishline.py:80-86 | for a project key without spaces, project and date are read back unchanged from the query |
| Query.ParseJqlSound | finishline.py:80-86 | every string the parser accepts is exactly the query built from what it read |
| Arguments.CheckRequired | finishline.py:52-60 | the check passes, returning the arguments, exactly when server, project, title and template are all non-empty; otherwise the error is `<flag> is required` for the first missing one, in that order |
| Arguments.CheckRequiredIgnoresOthers | finishline.py:52-59 | the verdict depends only on the four required options |
| Rendering.Update | finishline.py:74 | `dict.update`: no key of the map is lost, every pair's key is present, and the last pair's value is the one stored for its key |
| Rendering.UpdateSemantics | finishline.py:74 | `dict.update` with a list of pairs: the keys are the old keys plus the pairs' keys; a pair's key holds the last value given for it; other keys keep their value |
| Rendering.RenderContext | finishline.py:70-74 | the context holds the data's keys, `today` and the argument names; arguments override, `today` holds the run date unless an argument is named so, other data is unchanged |
| Rendering.ReportKeysKept | finishline.py:70-74 | with the command line's attribute names as keys, `today` and every data key that is not an argument name, such as `epics` and `by_epic`, reach the template unchanged |

## Left out

- The tracker client itself is a foreign network library. Searching, Kerberos authentication and construction are not modelled. `issue(key)` is a lookup in a fixed map of records plus a call log.
- `pull_issues` sends the query and yields what the tracker returns. Only the query string is modelled. The issues are an input sequence.
- `scrape_links` does an HTTP request and HTML parsing, and nothing calls it.
- The `rst2html` filter, Jinja2 environment set-up and template rendering call foreign libraries.
- argparse is a library. The model starts from the parsed values.
- The default `--since` date, the `today` date and `strftime` depend on the clock. Dates are opaque strings or values.
- `extract_mvp_status` is a bare dictionary read from a foreign record. `Collation.Epic` carries no MVP status. The read raises `KeyError` when the record lacks the MVP field, which aborts `get_epic_details` after the fetch. That failure is not modelled either, so `Collation.GetEpicDetails` fails only on a missing record.
- Reading an issue's epic field raises `KeyError` when the field is absent. Issues are modelled with the field already read (`None` when empty).
- The `__main__` block, printing and UTF-8 encoding are I/O.
- StatusUpdates.ExtractStatusUpdate: the source sets `comment.cleaned` on the tracker's comment object and returns that object. The model returns the comment together with the cleaned text as one value and does not capture the in-place update.
- Collation.GetEpicDetails: the source sets `status_update` and `mvp_status` on the tracker's epic object and returns that object. The model returns a new `Collation.Epic` value pairing the record with its status update, and does not capture the in-place update or aliasing of the record.
- Collation.CollateIssues: issues are compared as values, so two issues with the same key and epic value are one element of a set. The source puts the tracker library's issue objects in the sets, with whatever equality that library gives them.
- Filters.LowerChar, Filters.Lower, Filters.Slugify, Filters.SlugifyFixedPoints: only ASCII letters are lower-cased. Python's `lower()` also maps other Unicode capitals, so a string such as `"É"` is a fixed point of the model's slug but not of the source's.
- Collation.CollateIssues: `issues` is a sequence given in full, not the generator the source consumes lazily.
