/** Route groups (routergroup.go): a path prefix with the middleware shared
    by every route registered through it. */
module Routing {
  import opened Jin
  import Tree

  /** The engine a group belongs to, reduced to its per-method route trees. */
  class Engine {
    var trees: Tree.MethodTrees

    constructor ()
      ensures trees == []
    {
      trees := [];
    }
  }

  /** What `Use` hands back for chaining (`IRoutes`): the engine itself when the
      group is the engine's own root group, the group otherwise. */
  datatype Routes = EngineRoutes(engine: Engine?) | GroupRoutes(group: RouterGroup)

  class RouterGroup {
    var handlers: HandlerChain
    var basePath: string
    var engine: Engine?
    var root: bool

    constructor (handlers: HandlerChain, basePath: string, engine: Engine?, root: bool)
      ensures this.handlers == handlers && this.basePath == basePath
      ensures this.engine == engine && this.root == root
    {
      this.handlers, this.basePath, this.engine, this.root := handlers, basePath, engine, root;
    }

    /** `returnObj`: the engine exactly when this is a root group (a nil engine
        is handed back as it is), this group otherwise. */
    function ReturnObj(): (r: Routes)
      reads this`root, this`engine
      ensures r.EngineRoutes? <==> root
      ensures r.EngineRoutes? ==> r.engine == engine
      ensures r.GroupRoutes? ==> r.group == this
    {
      if root then EngineRoutes(engine) else GroupRoutes(this)
    }

    /** `Use` appends the middleware, in order, after the handlers already there
        and changes nothing else about the group. */
    method Use(middleware: seq<HandlerFunc>) returns (r: Routes)
      modifies this`handlers
      ensures handlers == old(handlers) + middleware
      ensures middleware == [] ==> handlers == old(handlers)
      ensures middleware != [] ==> Last(handlers) == Last(middleware)
      ensures r == ReturnObj()
    {
      handlers := handlers + middleware;
      r := ReturnObj();
    }
  }

}
