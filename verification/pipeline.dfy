/** The two entry points together: what the shortcode shows after a
    scheduled scrape. */
module Pipeline {
  import opened Wrappers
  import opened Scholar
  import Orchestrator
  import Display

  /** After a successful scrape the shortcode reads the serialized file the
      run wrote and writes nothing; the page is the one it would show by
      regenerating that file from the raw output alone. */
  lemma ScrapeThenDisplay(paths: Orchestrator.Paths, host: Orchestrator.Host,
                          parse: string -> Option<seq<Option<Author>>>, w: Orchestrator.World,
                          cfg: Display.Config, atts: map<string, string>)
    requires !w.lockHeld
    requires Orchestrator.FirstFailure(Orchestrator.Preconditions(paths, host)).None?
    requires host.scrape.exitCode == 0
    ensures var stored := Orchestrator.StartScraping(paths, host, parse, w).world.store;
      var shown := Display.DisplayResult(cfg, atts, parse, stored);
      && shown.store == stored
      && shown.page == Display.DisplayResult(cfg, atts, parse, Store(Some(host.scrape.output), None)).page
  {
    Orchestrator.PersistOnlyOnSuccess(paths, host, parse, w);
  }

  /** A run that fails, for whatever reason, changes nothing the shortcode
      can see: it shows the page it showed before the run. */
  lemma FailedScrapeKeepsPage(paths: Orchestrator.Paths, host: Orchestrator.Host,
                              parse: string -> Option<seq<Option<Author>>>, w: Orchestrator.World,
                              cfg: Display.Config, atts: map<string, string>)
    requires !w.lockHeld
    requires Orchestrator.FirstFailure(Orchestrator.Preconditions(paths, host)).Some?
             || host.scrape.exitCode != 0
    ensures var stored := Orchestrator.StartScraping(paths, host, parse, w).world.store;
      Display.DisplayResult(cfg, atts, parse, stored) == Display.DisplayResult(cfg, atts, parse, w.store)
  {
    Orchestrator.PersistOnlyOnSuccess(paths, host, parse, w);
  }
}
