/**
 The language-service worker that the editor loads for a language label.
 Only the module-relative path chosen for the languageLabel is modelled; resolving
 it against the module's own URL is not.
 */
module Workers {

  const JsonWorker := "./src/monaco/language/json/json.worker.js"
  const CssWorker := "./src/monaco/language/css/css.worker.js"
  const HtmlWorker := "./src/monaco/language/html/html.worker.js"
  const TsWorker := "./src/monaco/language/typescript/ts.worker.js"
  const EditorWorker := "./src/monaco/editor/editor.worker.js"

  /** The labels that have a worker of their own. */
  const LanguageLabels: set<string> := {"json", "css", "html", "typescript", "javascript"}

  /** `getWorkerUrl`'s switch on the label. */
  function WorkerPath(languageLabel: string): (path: string)
    ensures path in {JsonWorker, CssWorker, HtmlWorker, TsWorker, EditorWorker}
    ensures path == EditorWorker <==> languageLabel !in LanguageLabels
    ensures path == TsWorker <==> languageLabel == "typescript" || languageLabel == "javascript"
    ensures path == JsonWorker <==> languageLabel == "json"
    ensures path == CssWorker <==> languageLabel == "css"
    ensures path == HtmlWorker <==> languageLabel == "html"
  {
    if languageLabel == "json" then JsonWorker
    else if languageLabel == "css" then CssWorker
    else if languageLabel == "html" then HtmlWorker
    else if languageLabel == "typescript" || languageLabel == "javascript" then TsWorker
    else EditorWorker
  }
}
